/** The daily rollup clock: the first block of each local calendar day (in
    the zone the parameters name) records that day as the rollup watermark
    and emits one rollup event. */
module DailyRollupClock {
  import opened Base
  import opened Dates
  import opened LoyaltyParams
  import opened Types
  import opened LoyaltyKeeper

  /** The local date of the block in zone `tz`, as "2006-01-02"; a zone that
      does not load is ErrInvalidRequest (loadRollupLocation). */
  function LocalToday(env: Env, ctx: Ctx, tz: string): (r: Result<string>)
    ensures r.Ok? <==> env.tzLoadable(tz)
    ensures r.Ok? ==> r.value == FormatDate(env.localDate(ctx.blockTime, tz))
    ensures r.Err? ==> r.error == InvalidRequest
  {
    if !env.tzLoadable(tz) then Err(InvalidRequest)
    else Ok(FormatDate(env.localDate(ctx.blockTime, tz)))
  }

  /** The rollup date of a record: an explicit date must have the
      "2006-01-02" layout; an empty one stands for today's local date. */
  function RollupDate(env: Env, ctx: Ctx, params: Params, date: string): (r: Result<string>)
    ensures date != "" ==> (r.Ok? <==> ParseDate(date).Some?)
    ensures date != "" && r.Ok? ==> r.value == date
    ensures date == "" ==> r == LocalToday(env, ctx, params.dailyRollupTimezone)
    ensures r.Err? ==> r.error == InvalidRequest
  {
    if date == "" then LocalToday(env, ctx, params.dailyRollupTimezone)
    else if ParseDate(date).None? then Err(InvalidRequest)
    else Ok(date)
  }

  /** RunDailyRollup: the rollup event this block emits, None when today has
      already been rolled up, or the error of an unloadable zone. */
  function RollupSpec(env: Env, ctx: Ctx, params: Params, last: Option<string>): (r: Result<Option<Event>>)
    ensures r.Err? <==> !env.tzLoadable(params.dailyRollupTimezone)
    ensures r.Err? ==> r.error == InvalidRequest
    ensures r.Ok? ==> var today := FormatDate(env.localDate(ctx.blockTime, params.dailyRollupTimezone));
      && (r.value.None? <==> last == Some(today))
      && (r.value.Some? ==> r.value.value == DailyRollup(today, params.dailyRollupTimezone))
  {
    match LocalToday(env, ctx, params.dailyRollupTimezone)
    case Err(e) => Err(e)
    case Ok(today) =>
      if last == Some(today) then Ok(None)
      else Ok(Some(DailyRollup(today, params.dailyRollupTimezone)))
  }

  /** The watermark after a rollup step. */
  function WatermarkAfter(last: Option<string>, step: Result<Option<Event>>): Option<string>
  {
    if step.Ok? && step.value.Some? && step.value.value.DailyRollup? then Some(step.value.value.date) else last
  }

  /** Two blocks on the same local day roll up once: after a first rollup,
      the second emits nothing and the watermark stays that day. */
  lemma {:induction false} RollupOncePerLocalDay(env: Env, first: Ctx, second: Ctx, params: Params, last: Option<string>)
    requires env.tzLoadable(params.dailyRollupTimezone)
    requires env.localDate(first.blockTime, params.dailyRollupTimezone)
          == env.localDate(second.blockTime, params.dailyRollupTimezone)
    ensures var w := WatermarkAfter(last, RollupSpec(env, first, params, last));
      && w == Some(FormatDate(env.localDate(first.blockTime, params.dailyRollupTimezone)))
      && RollupSpec(env, second, params, w) == Ok(None)
      && WatermarkAfter(w, RollupSpec(env, second, params, w)) == w
  {
  }

  /** The decision follows the local date only: a block whose local date
      differs from the watermark rolls up, whatever the UTC date. */
  lemma {:induction false} RollupOnNewLocalDay(env: Env, first: Ctx, second: Ctx, params: Params, last: Option<string>)
    requires env.tzLoadable(params.dailyRollupTimezone)
    requires env.localDate(first.blockTime, params.dailyRollupTimezone)
          != env.localDate(second.blockTime, params.dailyRollupTimezone)
    ensures var w := WatermarkAfter(last, RollupSpec(env, first, params, last));
      var today := FormatDate(env.localDate(second.blockTime, params.dailyRollupTimezone));
      RollupSpec(env, second, params, w) == Ok(Some(DailyRollup(today, params.dailyRollupTimezone)))
  {
    var tz := params.dailyRollupTimezone;
    var d1 := env.localDate(first.blockTime, tz);
    var d2 := env.localDate(second.blockTime, tz);
    if FormatDate(d1) == FormatDate(d2) {
      FormatDateInjective(d1, d2);
      assert false;
    }
  }

  /** The rollup: today's local date becomes the watermark and one rollup
      event is emitted, unless today was already rolled up; an unloadable
      zone changes nothing. */
  method RunDailyRollup(k: Keeper, ctx: Ctx) returns (r: Outcome)
    modifies k`lastRollup, k`events
    ensures var s := old(RollupSpec(k.env, ctx, k.params, k.lastRollup));
      && (s.Err? ==> r == Fail(s.error))
      && (s.Ok? ==> r == Pass)
      && k.lastRollup == WatermarkAfter(old(k.lastRollup), s)
      && k.events == old(k.events) + (if s.Ok? && s.value.Some? then [s.value.value] else [])
  {
    var s := RollupSpec(k.env, ctx, k.params, k.lastRollup);
    if s.Err? {
      return Fail(s.error);
    }
    if s.value.Some? {
      k.lastRollup := Some(s.value.value.date);
      k.events := k.events + [s.value.value];
    }
    r := Pass;
  }
}
