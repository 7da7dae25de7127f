/** The records x/loyalty stores, the events it emits, the collaborators it
    calls (as parameters), and the per-record invariants the message handlers
    keep. */
module Types {
  import opened Base
  import opened Strings
  import opened Dates
  import opened LoyaltyParams

  /** A signed 64-bit Unix time in seconds, as returned by `BlockTime().Unix()`. */
  const MIN_I64: int := -0x8000_0000_0000_0000
  const MAX_I64: int := 0x7FFF_FFFF_FFFF_FFFF
  type I64 = x: int | MIN_I64 <= x <= MAX_I64

  /** Longest cancel reason, in bytes of its UTF-8 encoding. */
  const MAX_CANCEL_REASON_BYTES: nat := 512

  datatype AllowlistEntry = AllowlistEntry(creator: string, address: string, enabled: bool)

  datatype VerifiedToken = VerifiedToken(
    creator: string,
    denom: string,
    issuer: string,
    name: string,
    symbol: string,
    description: string,
    website: string,
    maxSupply: U64,
    mintedSupply: U64,
    verified: bool,
    seizureOptIn: bool,
    recoveryGroupPolicy: string,
    recoveryTimelockHours: U64,
    adminRenounced: bool,
    merchantIncentiveStakersBps: U64,
    merchantIncentiveTreasuryBps: U64)

  datatype RewardAccrual = RewardAccrual(
    creator: string,
    key: string,
    address: string,
    denom: string,
    amount: U64,
    lastRollupDate: string)

  datatype MerchantAllocation = MerchantAllocation(
    creator: string,
    key: string,
    date: string,
    denom: string,
    activityScore: U64,
    bucketCAmount: U64,
    stakersAmount: U64,
    treasuryAmount: U64,
    merchantIncentiveStakersBps: U64,
    merchantIncentiveTreasuryBps: U64)

  datatype RecoveryStatus = Queued | Executed | Cancelled

  /** The status strings of a recovery operation. The declarations of these
      constants are not part of this model; the names below are placeholders,
      and nothing in the model depends on them beyond being distinct,
      non-empty and free of surrounding white space. */
  function StatusName(s: RecoveryStatus): (name: string)
    ensures name != [] && !IsSpace(name[0]) && !IsSpace(name[|name| - 1])
  {
    match s
    case Queued => "queued"
    case Executed => "executed"
    case Cancelled => "cancelled"
  }

  lemma StatusNameInjective(a: RecoveryStatus, b: RecoveryStatus)
    ensures StatusName(a) == StatusName(b) ==> a == b
  {
  }

  datatype RecoveryOperation = RecoveryOperation(
    id: U64,
    denom: string,
    fromAddress: string,
    toAddress: string,
    amount: U64,
    requestedBy: string,
    executeAfter: U64,
    createdAt: U64,
    status: RecoveryStatus,
    executedAt: U64,
    cancelledAt: U64,
    cancelReason: string)

  /** Events the keeper emits, with their attributes. */
  datatype Event =
    | RecoveryTransferQueued(id: U64, denom: string, fromAddress: string, toAddress: string, amount: U64, executeAfter: U64)
    | RecoveryTransferExecuted(id: U64, denom: string, fromAddress: string, toAddress: string, amount: U64, executedAt: U64)
    | RecoveryTransferCancelled(id: U64, denom: string, cancelledAt: U64, reason: string)
    | DailyRollup(date: string, timezone: string)

  /** The collaborators of the keeper, none of whose internals are modelled:
      - `addressBytes`: the bech32 address codec's StringToBytes (None on error);
      - `authority`: the governance authority's address bytes;
      - `validDenom`: sdk.ValidateDenom;
      - `groupPolicyInfo`: the x/group keeper's policy lookup, None when no
        group keeper is wired in;
      - `tzLoadable`: whether time.LoadLocation succeeds for a zone name;
      - `localDate`: the calendar date of a Unix time in a zone;
      - `bondDenom`: sdk.DefaultBondDenom;
      - `moduleAddress`: the loyalty module account's address bytes;
      - `resolveDenom`: the one-argument resolveStoredDenom call made by
        update, delete, renounce and set-routing, a lookup step that gives a
        denom, or None where the three-argument definition in
        TokenFactoryDenom fails, which it only does with ErrLogic. */
  datatype Env = Env(
    addressBytes: string -> Option<Bytes>,
    authority: Bytes,
    validDenom: string -> bool,
    groupPolicyInfo: Option<string -> bool>,
    tzLoadable: string -> bool,
    localDate: (int, string) -> LocalDate,
    bondDenom: string,
    moduleAddress: Bytes,
    resolveDenom: string -> Option<string>)

  /** Per-transaction context: the chain id and the block time. */
  datatype Ctx = Ctx(chainId: string, blockTime: I64)

  predicate IsAddress(env: Env, s: string)
  {
    env.addressBytes(s).Some?
  }

  /** `signer` decodes to the authority's bytes. */
  predicate IsAuthority(env: Env, signer: string)
  {
    env.addressBytes(signer) == Some(env.authority)
  }

  /** rewardAccrualKey: `address|denom`. */
  function RewardAccrualKey(address: string, denom: string): (key: string)
    ensures key == address + ['|'] + denom
    ensures |key| == |address| + |denom| + 1
  {
    address + "|" + denom
  }

  /** merchantAllocationKey, whose definition is not part of this model; the
      same `date|denom` shape as the reward accrual key is assumed. */
  function MerchantAllocationKey(date: string, denom: string): (key: string)
    ensures key == date + ['|'] + denom
  {
    date + "|" + denom
  }

  // ----- invariants of the stored records -----

  /** A stored routing split: the legacy 0/0 of records written before
      routing existed, or a split summing to 100%. */
  predicate StoredRouting(stakersBps: U64, treasuryBps: U64)
  {
    (stakersBps == 0 && treasuryBps == 0) || IsRouting(stakersBps, treasuryBps)
  }

  /** A stored token: under its own denom, minted within the cap, a stored
      routing split, seizure exactly with a recovery policy (and no timelock
      without one), and no seizure once the admin is renounced. Minted within
      the cap holds because the mint handler is modelled with the exact cap
      check; the handler as written (see MintMsgs.CapCheckWrapsAboveCap) can
      leave a token above its cap. */
  predicate TokenInvariant(key: string, t: VerifiedToken)
  {
    && t.denom == key
    && t.mintedSupply <= t.maxSupply
    && StoredRouting(t.merchantIncentiveStakersBps, t.merchantIncentiveTreasuryBps)
    && (t.seizureOptIn ==> t.recoveryGroupPolicy != "")
    && (!t.seizureOptIn ==> t.recoveryGroupPolicy == "" && t.recoveryTimelockHours == 0)
    && (t.adminRenounced ==> !t.seizureOptIn)
  }

  predicate OperationInvariant(id: U64, op: RecoveryOperation)
  {
    && op.id == id
    && op.amount > 0
    && op.createdAt <= op.executeAfter
    && (op.status == Queued ==> op.executedAt == 0 && op.cancelledAt == 0 && op.cancelReason == "")
    && (op.status == Executed ==>
          op.executeAfter <= op.executedAt && op.cancelledAt == 0 && op.cancelReason == "")
    && (op.status == Cancelled ==>
          op.executedAt == 0 && op.cancelReason != "" && Trimmed(op.cancelReason)
          && Utf8Len(op.cancelReason) <= MAX_CANCEL_REASON_BYTES)
  }

  predicate AccrualInvariant(key: string, r: RewardAccrual)
  {
    r.key == key && key == RewardAccrualKey(r.address, r.denom) && r.amount > 0
  }

  predicate AllocationInvariant(key: string, a: MerchantAllocation)
  {
    && a.key == key
    && key == MerchantAllocationKey(a.date, a.denom)
    && a.activityScore > 0
    && a.bucketCAmount > 0
    && IsRouting(a.merchantIncentiveStakersBps, a.merchantIncentiveTreasuryBps)
    && a.stakersAmount + a.treasuryAmount == a.bucketCAmount
  }

  predicate AllowlistInvariant(key: string, e: AllowlistEntry)
  {
    e.address == key
  }

  predicate TokensValid(tokens: map<string, VerifiedToken>)
  {
    forall d :: d in tokens ==> TokenInvariant(d, tokens[d])
  }

  predicate OperationsValid(ops: map<U64, RecoveryOperation>)
  {
    forall id :: id in ops ==> OperationInvariant(id, ops[id])
  }

  predicate AccrualsValid(accruals: map<string, RewardAccrual>)
  {
    forall k :: k in accruals ==> AccrualInvariant(k, accruals[k])
  }

  predicate AllocationsValid(allocations: map<string, MerchantAllocation>)
  {
    forall k :: k in allocations ==> AllocationInvariant(k, allocations[k])
  }

  predicate AllowlistValid(allowlist: map<string, AllowlistEntry>)
  {
    forall k :: k in allowlist ==> AllowlistInvariant(k, allowlist[k])
  }

  /** Storing a record that keeps its invariant keeps the table valid. */
  lemma TokensValidUpdate(tokens: map<string, VerifiedToken>, t: VerifiedToken)
    requires TokensValid(tokens) && TokenInvariant(t.denom, t)
    ensures TokensValid(tokens[t.denom := t])
  {
  }

  lemma OperationsValidUpdate(ops: map<U64, RecoveryOperation>, op: RecoveryOperation)
    requires OperationsValid(ops) && OperationInvariant(op.id, op)
    ensures OperationsValid(ops[op.id := op])
  {
    var updated := ops[op.id := op];
    forall id | id in updated
      ensures OperationInvariant(id, updated[id])
    {
      if id != op.id {
        assert updated[id] == ops[id];
      }
    }
  }

  lemma AccrualsValidUpdate(accruals: map<string, RewardAccrual>, rec: RewardAccrual)
    requires AccrualsValid(accruals) && AccrualInvariant(rec.key, rec)
    ensures AccrualsValid(accruals[rec.key := rec])
  {
    var updated := accruals[rec.key := rec];
    forall key | key in updated
      ensures AccrualInvariant(key, updated[key])
    {
      if key != rec.key {
        assert updated[key] == accruals[key];
      }
    }
  }

  lemma AllocationsValidUpdate(allocations: map<string, MerchantAllocation>, a: MerchantAllocation)
    requires AllocationsValid(allocations) && AllocationInvariant(a.key, a)
    ensures AllocationsValid(allocations[a.key := a])
  {
    var updated := allocations[a.key := a];
    forall key | key in updated
      ensures AllocationInvariant(key, updated[key])
    {
      if key != a.key {
        assert updated[key] == allocations[key];
      }
    }
  }
}
