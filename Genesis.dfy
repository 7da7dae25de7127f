/** The module's genesis state, its default and its validation: no table may
    list a key twice, every recovery operation id must lie below the
    operation counter, and the parameters must validate. */
module Genesis {
  import opened Base
  import opened LoyaltyParams
  import opened Types

  datatype GenesisState = GenesisState(
    params: Params,
    allowlist: seq<AllowlistEntry>,
    tokens: seq<VerifiedToken>,
    accruals: seq<RewardAccrual>,
    allocations: seq<MerchantAllocation>,
    ops: seq<RecoveryOperation>,
    opCount: U64,
    lastDailyRollupDate: string)

  function DefaultGenesis(): GenesisState
  {
    GenesisState(DefaultParams(), [], [], [], [], [], 0, "")
  }

  predicate Distinct<T(==)>(s: seq<T>)
  {
    forall i, j :: 0 <= i < j < |s| ==> s[i] != s[j]
  }

  function AllowlistAddresses(l: seq<AllowlistEntry>): (r: seq<string>)
    ensures |r| == |l| && forall i :: 0 <= i < |l| ==> r[i] == l[i].address
  {
    seq(|l|, i requires 0 <= i < |l| => l[i].address)
  }

  function TokenDenoms(l: seq<VerifiedToken>): (r: seq<string>)
    ensures |r| == |l| && forall i :: 0 <= i < |l| ==> r[i] == l[i].denom
  {
    seq(|l|, i requires 0 <= i < |l| => l[i].denom)
  }

  function AccrualKeys(l: seq<RewardAccrual>): (r: seq<string>)
    ensures |r| == |l| && forall i :: 0 <= i < |l| ==> r[i] == l[i].key
  {
    seq(|l|, i requires 0 <= i < |l| => l[i].key)
  }

  function OpIds(l: seq<RecoveryOperation>): (r: seq<U64>)
    ensures |r| == |l| && forall i :: 0 <= i < |l| ==> r[i] == l[i].id
  {
    seq(|l|, i requires 0 <= i < |l| => l[i].id)
  }

  /** Every id lies below the counter. */
  predicate IdsBelow(ids: seq<U64>, count: U64)
  {
    forall i :: 0 <= i < |ids| ==> ids[i] < count
  }

  /** GenesisState.Validate: ErrInvalidGenesis for a repeated allowlist
      address, token denom, accrual key or operation id, or an operation id
      at or above the counter; otherwise the parameters' verdict. */
  function GenesisSpec(gs: GenesisState, tzLoadable: string -> bool): (r: Outcome)
    ensures r.Fail? ==> r.error in {InvalidGenesis, InvalidParams}
  {
    if !Distinct(AllowlistAddresses(gs.allowlist)) then Fail(InvalidGenesis)
    else if !Distinct(TokenDenoms(gs.tokens)) then Fail(InvalidGenesis)
    else if !Distinct(AccrualKeys(gs.accruals)) then Fail(InvalidGenesis)
    else if !(Distinct(OpIds(gs.ops)) && IdsBelow(OpIds(gs.ops), gs.opCount)) then Fail(InvalidGenesis)
    else Validate(gs.params, tzLoadable)
  }

  /** One pass over a list of keys with a set of those already seen, stopping
      at the first repeat. */
  method CheckDistinct<T(==)>(keys: seq<T>) returns (ok: bool)
    ensures ok <==> Distinct(keys)
  {
    var seen: set<T> := {};
    for i := 0 to |keys|
      invariant seen == set j | 0 <= j < i :: keys[j]
      invariant Distinct(keys[..i])
    {
      if keys[i] in seen {
        var j :| 0 <= j < i && keys[j] == keys[i];
        assert keys[j] == keys[i];
        return false;
      }
      seen := seen + {keys[i]};
    }
    assert keys[..|keys|] == keys;
    return true;
  }

  /** The operation pass: each id must be new and below the counter. */
  method CheckOpIds(ids: seq<U64>, count: U64) returns (ok: bool)
    ensures ok <==> Distinct(ids) && IdsBelow(ids, count)
  {
    var seen: set<U64> := {};
    for i := 0 to |ids|
      invariant seen == set j | 0 <= j < i :: ids[j]
      invariant Distinct(ids[..i]) && IdsBelow(ids[..i], count)
    {
      if ids[i] in seen {
        var j :| 0 <= j < i && ids[j] == ids[i];
        assert ids[j] == ids[i];
        return false;
      }
      if ids[i] >= count {
        return false;
      }
      seen := seen + {ids[i]};
    }
    assert ids[..|ids|] == ids;
    return true;
  }

  method ValidateGenesis(gs: GenesisState, tzLoadable: string -> bool) returns (r: Outcome)
    ensures r == GenesisSpec(gs, tzLoadable)
  {
    var ok := CheckDistinct(AllowlistAddresses(gs.allowlist));
    if !ok {
      return Fail(InvalidGenesis);
    }
    ok := CheckDistinct(TokenDenoms(gs.tokens));
    if !ok {
      return Fail(InvalidGenesis);
    }
    ok := CheckDistinct(AccrualKeys(gs.accruals));
    if !ok {
      return Fail(InvalidGenesis);
    }
    ok := CheckOpIds(OpIds(gs.ops), gs.opCount);
    if !ok {
      return Fail(InvalidGenesis);
    }
    r := Validate(gs.params, tzLoadable);
  }

  /** The default genesis validates wherever the default time zone loads. */
  lemma DefaultGenesisValid(tzLoadable: string -> bool)
    requires tzLoadable(DEFAULT_DAILY_ROLLUP_TIMEZONE)
    ensures GenesisSpec(DefaultGenesis(), tzLoadable) == Pass
  {
    DefaultParamsValid(tzLoadable);
  }

  /** Two operations with one id, or an id at or above the counter, make the
      genesis invalid. */
  lemma {:induction false} GenesisRejectsBadOps(gs: GenesisState, tzLoadable: string -> bool, i: nat, j: nat)
    requires i < j < |gs.ops|
    ensures gs.ops[i].id == gs.ops[j].id ==> GenesisSpec(gs, tzLoadable).Fail?
    ensures gs.ops[i].id >= gs.opCount ==> GenesisSpec(gs, tzLoadable).Fail?
  {
    var ids := OpIds(gs.ops);
    assert ids[i] == gs.ops[i].id && ids[j] == gs.ops[j].id;
  }

  /** A valid genesis leaves the operation counter ahead of every stored id,
      so the next id the sequence hands out is fresh. */
  lemma {:induction false} GenesisCounterAhead(gs: GenesisState, tzLoadable: string -> bool, op: RecoveryOperation)
    requires GenesisSpec(gs, tzLoadable) == Pass
    requires op in gs.ops
    ensures op.id < gs.opCount
  {
    var i :| 0 <= i < |gs.ops| && gs.ops[i] == op;
    assert OpIds(gs.ops)[i] == op.id;
  }

  /** Validation reads neither the merchant allocations nor the last rollup
      date: a duplicated allocation key or a malformed date does not make a
      genesis invalid. */
  lemma GenesisIgnoresAllocationsAndDate(gs: GenesisState, tzLoadable: string -> bool,
                                         allocations: seq<MerchantAllocation>, lastDate: string)
    ensures GenesisSpec(gs.(allocations := allocations, lastDailyRollupDate := lastDate), tzLoadable)
         == GenesisSpec(gs, tzLoadable)
  {
  }
}
