/** The three filter queries: recovery operations, merchant allocations and
    reward accruals, each filtered by trimmed, optional criteria and then
    paginated. */
module QueryFilters {
  import opened Base
  import opened Strings
  import opened Dates
  import opened Types
  import opened LoyaltyKeeper
  import opened Pagination

  // ----- recovery operations -----

  datatype OpFilterRequest = OpFilterRequest(
    status: string, denom: string, requestedBy: string, fromAddress: string, toAddress: string,
    pagination: Option<PageRequest>)

  /** A status filter is empty or names one of the three statuses. */
  predicate KnownStatusFilter(status: string)
  {
    status == "" || status == StatusName(Queued) || status == StatusName(Executed) || status == StatusName(Cancelled)
  }

  /** An operation passes a criterion that is empty or that it equals. */
  predicate OpMatches(req: OpFilterRequest, op: RecoveryOperation)
  {
    var status := TrimSpace(req.status);
    var denom := TrimSpace(req.denom);
    var requestedBy := TrimSpace(req.requestedBy);
    var from := TrimSpace(req.fromAddress);
    var to := TrimSpace(req.toAddress);
    && (status == "" || StatusName(op.status) == status)
    && (denom == "" || op.denom == denom)
    && (requestedBy == "" || op.requestedBy == requestedBy)
    && (from == "" || op.fromAddress == from)
    && (to == "" || op.toAddress == to)
  }

  function OpFilter(req: OpFilterRequest): RecoveryOperation -> bool
  {
    op => OpMatches(req, op)
  }

  /** FilterRecoveryoperation: the page of matching operations in id order,
      or InvalidArgument for a missing request, an unknown status or a bad
      page key. */
  function FilterOpsSpec(ops: map<U64, RecoveryOperation>, walk: seq<U64>, req: Option<OpFilterRequest>)
    : (r: Result<Page<RecoveryOperation>>)
    requires forall i :: 0 <= i < |walk| ==> walk[i] in ops
    ensures r.Err? ==> r.error == StatusInvalidArgument
    ensures req.Some? && !KnownStatusFilter(TrimSpace(req.value.status)) ==> r.Err?
  {
    if req.None? then Err(StatusInvalidArgument)
    else if !KnownStatusFilter(TrimSpace(req.value.status)) then Err(StatusInvalidArgument)
    else Paginate(Keep(ValuesAt(ops, walk), OpFilter(req.value)), req.value.pagination)
  }

  /** Every operation returned is stored and meets every non-empty
      criterion; without pagination every stored operation that meets them
      is returned. */
  lemma {:induction false} FilterOpsExact(ops: map<U64, RecoveryOperation>, walk: seq<U64>, req: Option<OpFilterRequest>,
                                          op: RecoveryOperation)
    requires WalksTable(ops, walk)
    requires FilterOpsSpec(ops, walk, req).Ok?
    ensures op in FilterOpsSpec(ops, walk, req).value.items ==> op in ops.Values && OpMatches(req.value, op)
    ensures req.value.pagination.None? && op in ops.Values && OpMatches(req.value, op) ==>
      op in FilterOpsSpec(ops, walk, req).value.items
  {
    PageOfKept(ValuesAt(ops, walk), OpFilter(req.value), req.value.pagination, op);
    ValuesAtCovers(ops, walk, op);
  }

  /** The query reads the table once in id order and changes nothing. */
  method FilterRecoveryOperations(k: Keeper, walk: seq<U64>, req: Option<OpFilterRequest>)
    returns (r: Result<Page<RecoveryOperation>>)
    requires WalksTable(k.ops, walk)
    ensures r == FilterOpsSpec(k.ops, walk, req)
  {
    if req.None? || !KnownStatusFilter(TrimSpace(req.value.status)) {
      return Err(StatusInvalidArgument);
    }
    var filtered := CollectMatching(k.ops, walk, OpFilter(req.value));
    r := Paginate(filtered, req.value.pagination);
  }

  // ----- merchant allocations -----

  datatype AllocationFilterRequest = AllocationFilterRequest(date: string, denom: string, pagination: Option<PageRequest>)

  predicate AllocationMatches(req: AllocationFilterRequest, a: MerchantAllocation)
  {
    var date := TrimSpace(req.date);
    var denom := TrimSpace(req.denom);
    (date == "" || a.date == date) && (denom == "" || a.denom == denom)
  }

  function AllocationFilter(req: AllocationFilterRequest): MerchantAllocation -> bool
  {
    a => AllocationMatches(req, a)
  }

  /** A date criterion must have the "2006-01-02" layout and a denom
      criterion must be a valid denom. */
  predicate AllocationFilterWellFormed(env: Env, req: AllocationFilterRequest)
  {
    var date := TrimSpace(req.date);
    var denom := TrimSpace(req.denom);
    (date == "" || ParseDate(date).Some?) && (denom == "" || env.validDenom(denom))
  }

  /** FilterMerchantallocation: the page of matching allocations in key
      order, or InvalidArgument. */
  function FilterAllocationsSpec(env: Env, allocations: map<string, MerchantAllocation>, walk: seq<string>,
                                 req: Option<AllocationFilterRequest>): (r: Result<Page<MerchantAllocation>>)
    requires forall i :: 0 <= i < |walk| ==> walk[i] in allocations
    ensures r.Err? ==> r.error == StatusInvalidArgument
    ensures req.Some? && !AllocationFilterWellFormed(env, req.value) ==> r.Err?
  {
    if req.None? then Err(StatusInvalidArgument)
    else if TrimSpace(req.value.date) != "" && ParseDate(TrimSpace(req.value.date)).None? then Err(StatusInvalidArgument)
    else if TrimSpace(req.value.denom) != "" && !env.validDenom(TrimSpace(req.value.denom)) then Err(StatusInvalidArgument)
    else Paginate(Keep(ValuesAt(allocations, walk), AllocationFilter(req.value)), req.value.pagination)
  }

  lemma {:induction false} FilterAllocationsExact(env: Env, allocations: map<string, MerchantAllocation>, walk: seq<string>,
                                                  req: Option<AllocationFilterRequest>, a: MerchantAllocation)
    requires WalksTable(allocations, walk)
    requires FilterAllocationsSpec(env, allocations, walk, req).Ok?
    ensures a in FilterAllocationsSpec(env, allocations, walk, req).value.items ==>
      a in allocations.Values && AllocationMatches(req.value, a)
    ensures req.value.pagination.None? && a in allocations.Values && AllocationMatches(req.value, a) ==>
      a in FilterAllocationsSpec(env, allocations, walk, req).value.items
  {
    PageOfKept(ValuesAt(allocations, walk), AllocationFilter(req.value), req.value.pagination, a);
    ValuesAtCovers(allocations, walk, a);
  }

  method FilterMerchantAllocations(k: Keeper, walk: seq<string>, req: Option<AllocationFilterRequest>)
    returns (r: Result<Page<MerchantAllocation>>)
    requires WalksTable(k.allocations, walk)
    ensures r == FilterAllocationsSpec(k.env, k.allocations, walk, req)
  {
    if req.None? {
      return Err(StatusInvalidArgument);
    }
    var date := TrimSpace(req.value.date);
    if date != "" && ParseDate(date).None? {
      return Err(StatusInvalidArgument);
    }
    var denom := TrimSpace(req.value.denom);
    if denom != "" && !k.env.validDenom(denom) {
      return Err(StatusInvalidArgument);
    }
    var filtered := CollectMatching(k.allocations, walk, AllocationFilter(req.value));
    r := Paginate(filtered, req.value.pagination);
  }

  // ----- reward accruals -----

  datatype AccrualFilterRequest = AccrualFilterRequest(address: string, denom: string, pagination: Option<PageRequest>)

  predicate AccrualMatches(req: AccrualFilterRequest, a: RewardAccrual)
  {
    var address := TrimSpace(req.address);
    var denom := TrimSpace(req.denom);
    (address == "" || a.address == address) && (denom == "" || a.denom == denom)
  }

  function AccrualFilter(req: AccrualFilterRequest): RewardAccrual -> bool
  {
    a => AccrualMatches(req, a)
  }

  /** An address criterion must decode and a denom criterion must be a valid
      denom. */
  predicate AccrualFilterWellFormed(env: Env, req: AccrualFilterRequest)
  {
    var address := TrimSpace(req.address);
    var denom := TrimSpace(req.denom);
    (address == "" || IsAddress(env, address)) && (denom == "" || env.validDenom(denom))
  }

  /** FilterRewardaccrual: the page of matching accruals in key order, or
      InvalidArgument. */
  function FilterAccrualsSpec(env: Env, accruals: map<string, RewardAccrual>, walk: seq<string>,
                              req: Option<AccrualFilterRequest>): (r: Result<Page<RewardAccrual>>)
    requires forall i :: 0 <= i < |walk| ==> walk[i] in accruals
    ensures r.Err? ==> r.error == StatusInvalidArgument
    ensures req.Some? && !AccrualFilterWellFormed(env, req.value) ==> r.Err?
  {
    if req.None? then Err(StatusInvalidArgument)
    else if TrimSpace(req.value.address) != "" && !IsAddress(env, TrimSpace(req.value.address)) then Err(StatusInvalidArgument)
    else if TrimSpace(req.value.denom) != "" && !env.validDenom(TrimSpace(req.value.denom)) then Err(StatusInvalidArgument)
    else Paginate(Keep(ValuesAt(accruals, walk), AccrualFilter(req.value)), req.value.pagination)
  }

  lemma {:induction false} FilterAccrualsExact(env: Env, accruals: map<string, RewardAccrual>, walk: seq<string>,
                                               req: Option<AccrualFilterRequest>, a: RewardAccrual)
    requires WalksTable(accruals, walk)
    requires FilterAccrualsSpec(env, accruals, walk, req).Ok?
    ensures a in FilterAccrualsSpec(env, accruals, walk, req).value.items ==>
      a in accruals.Values && AccrualMatches(req.value, a)
    ensures req.value.pagination.None? && a in accruals.Values && AccrualMatches(req.value, a) ==>
      a in FilterAccrualsSpec(env, accruals, walk, req).value.items
  {
    PageOfKept(ValuesAt(accruals, walk), AccrualFilter(req.value), req.value.pagination, a);
    ValuesAtCovers(accruals, walk, a);
  }

  method FilterRewardAccruals(k: Keeper, walk: seq<string>, req: Option<AccrualFilterRequest>)
    returns (r: Result<Page<RewardAccrual>>)
    requires WalksTable(k.accruals, walk)
    ensures r == FilterAccrualsSpec(k.env, k.accruals, walk, req)
  {
    if req.None? {
      return Err(StatusInvalidArgument);
    }
    var address := TrimSpace(req.value.address);
    if address != "" && !IsAddress(k.env, address) {
      return Err(StatusInvalidArgument);
    }
    var denom := TrimSpace(req.value.denom);
    if denom != "" && !k.env.validDenom(denom) {
      return Err(StatusInvalidArgument);
    }
    var filtered := CollectMatching(k.accruals, walk, AccrualFilter(req.value));
    r := Paginate(filtered, req.value.pagination);
  }
}
