/** QueueRecoveryTransfer: a token's recovery group policy, or the authority,
    queues a forced transfer that may run once the token's timelock has
    passed. */
module RecoveryQueue {
  import opened Base
  import opened Strings
  import opened Types
  import opened LoyaltyParams
  import opened TokenFactoryDenom
  import opened Policy
  import opened LoyaltyKeeper

  datatype MsgQueueRecoveryTransfer = MsgQueueRecoveryTransfer(
    creator: string, denom: string, fromAddress: string, toAddress: string, amount: U64)

  datatype QueueResponse = QueueResponse(id: U64, status: RecoveryStatus, executeAfter: U64)

  /** May `signer` act for the recovery of `t`: its group policy or the
      authority. */
  predicate MayRecover(env: Env, signer: string, t: VerifiedToken)
  {
    signer == t.recoveryGroupPolicy || IsAuthority(env, signer)
  }

  /** The unlock time `now + hours*3600`, or None where the source's guards
      see that it would not fit in a uint64. */
  function UnlockTime(now: U64, hours: U64): (r: Option<U64>)
    ensures r.Some? <==> now + hours * 3600 <= MAX_U64
    ensures r.Some? ==> r.value == now + hours * 3600
  {
    if hours > MAX_U64 / 3600 then None
    else
      var seconds := hours * 3600;
      if now > MAX_U64 - seconds then None else Some(now + seconds)
  }

  /** QueueRecoveryTransfer: the operation to store under `id`, the value the
      sequence hands out next, or the error. */
  function QueueSpec(env: Env, ctx: Ctx, params: Params, tokens: map<string, VerifiedToken>,
                     msg: MsgQueueRecoveryTransfer, id: U64): (r: Result<RecoveryOperation>)
    ensures r.Ok? ==>
      && ctx.blockTime >= 0
      && msg.denom in tokens
      && r.value == RecoveryOperation(id, msg.denom, msg.fromAddress, msg.toAddress, msg.amount, msg.creator,
                                      r.value.executeAfter, ctx.blockTime, Queued, 0, 0, "")
      && r.value.executeAfter == ctx.blockTime + tokens[msg.denom].recoveryTimelockHours * 3600
  {
    var check := CheckQueueMsg(env, msg);
    if check.Fail? then Err(check.error)
    else if msg.denom !in tokens then Err(TokenNotFound)
    else
      var token := tokens[msg.denom];
      var allowed := CheckRecoveryToken(env, ctx, params, msg.creator, token);
      if allowed.Fail? then Err(allowed.error)
      else if ctx.blockTime < 0 then Err(RecoveryBadRequest)
      else
        match UnlockTime(ctx.blockTime, token.recoveryTimelockHours)
        case None => Err(RecoveryBadRequest)
        case Some(executeAfter) =>
          Ok(RecoveryOperation(id, msg.denom, msg.fromAddress, msg.toAddress, msg.amount, msg.creator,
                               executeAfter, ctx.blockTime, Queued, 0, 0, ""))
  }

  /** The message's own checks, in their order: a decodable signer, a
      positive amount, two decodable and different addresses and a valid
      token factory denom. */
  function CheckQueueMsg(env: Env, msg: MsgQueueRecoveryTransfer): (r: Outcome)
    ensures r.Pass? <==>
      && IsAddress(env, msg.creator) && msg.amount > 0 && IsAddress(env, msg.fromAddress) && IsAddress(env, msg.toAddress)
      && TrimSpace(msg.fromAddress) != TrimSpace(msg.toAddress) && ValidateTokenFactoryDenom(env, msg.denom).Pass?
  {
    if !IsAddress(env, msg.creator) then Fail(AddressCodec)
    else if msg.amount == 0 then Fail(RecoveryBadRequest)
    else if !IsAddress(env, msg.fromAddress) then Fail(InvalidAddress)
    else if !IsAddress(env, msg.toAddress) then Fail(InvalidAddress)
    else if TrimSpace(msg.fromAddress) == TrimSpace(msg.toAddress) then Fail(RecoveryBadRequest)
    else ValidateTokenFactoryDenom(env, msg.denom)
  }

  /** The token's checks, in their order: seizure on, a recovery policy the
      group registry knows, a signer allowed to recover, and a timelock at
      the network minimum. */
  function CheckRecoveryToken(env: Env, ctx: Ctx, params: Params, signer: string, token: VerifiedToken): (r: Outcome)
    ensures r.Pass? <==>
      && token.seizureOptIn && token.recoveryGroupPolicy != ""
      && EnsureGroupPolicyExists(env, token.recoveryGroupPolicy).Pass?
      && MayRecover(env, signer, token)
      && token.recoveryTimelockHours >= MinimumRecoveryTimelockHours(ctx.chainId, params)
  {
    if !token.seizureOptIn then Fail(RecoveryPolicy)
    else if token.recoveryGroupPolicy == "" then Fail(RecoveryPolicy)
    else if EnsureGroupPolicyExists(env, token.recoveryGroupPolicy).Fail? then EnsureGroupPolicyExists(env, token.recoveryGroupPolicy)
    else if !MayRecover(env, signer, token) then Fail(RecoveryUnauthorized)
    else if token.recoveryTimelockHours < MinimumRecoveryTimelockHours(ctx.chainId, params) then Fail(RecoveryPolicy)
    else Pass
  }

  /** A queued operation satisfies the operation invariant: it unlocks no
      earlier than it was created and carries no execution or cancellation. */
  lemma QueuedOperationValid(env: Env, ctx: Ctx, params: Params, tokens: map<string, VerifiedToken>,
                             msg: MsgQueueRecoveryTransfer, id: U64)
    requires QueueSpec(env, ctx, params, tokens, msg, id).Ok?
    ensures OperationInvariant(id, QueueSpec(env, ctx, params, tokens, msg, id).value)
  {
  }

  /** A queued transfer needs all of: a positive amount, two different
      addresses, a stored token with seizure on, a non-empty recovery policy
      the group registry still knows, a caller who is that policy or the
      authority, and a timelock at the network minimum. */
  lemma QueueRequiresAll(env: Env, ctx: Ctx, params: Params, tokens: map<string, VerifiedToken>,
                         msg: MsgQueueRecoveryTransfer, id: U64)
    requires QueueSpec(env, ctx, params, tokens, msg, id).Ok?
    ensures msg.amount > 0 && IsAddress(env, msg.fromAddress) && IsAddress(env, msg.toAddress)
    ensures TrimSpace(msg.fromAddress) != TrimSpace(msg.toAddress)
    ensures ValidateTokenFactoryDenom(env, msg.denom) == Pass
    ensures var t := tokens[msg.denom];
      && t.seizureOptIn && t.recoveryGroupPolicy != ""
      && EnsureGroupPolicyExists(env, t.recoveryGroupPolicy) == Pass
      && MayRecover(env, msg.creator, t)
      && t.recoveryTimelockHours >= MinimumRecoveryTimelockHours(ctx.chainId, params)
  {
  }

  /** A zero amount, or from and to addresses equal after trimming, is
      ErrRecoveryBadRequest. */
  lemma QueueRejectsBadRequest(env: Env, ctx: Ctx, params: Params, tokens: map<string, VerifiedToken>,
                               msg: MsgQueueRecoveryTransfer, id: U64)
    requires IsAddress(env, msg.creator)
    ensures msg.amount == 0 ==> QueueSpec(env, ctx, params, tokens, msg, id) == Err(RecoveryBadRequest)
    ensures IsAddress(env, msg.fromAddress) && IsAddress(env, msg.toAddress)
      && TrimSpace(msg.fromAddress) == TrimSpace(msg.toAddress)
      ==> QueueSpec(env, ctx, params, tokens, msg, id) == Err(RecoveryBadRequest)
  {
  }

  /** The unlock time never wraps: where `now + hours*3600` passes the
      uint64 range the queue is refused. */
  lemma QueueNeverWraps(env: Env, ctx: Ctx, params: Params, tokens: map<string, VerifiedToken>,
                        msg: MsgQueueRecoveryTransfer, id: U64)
    requires msg.denom in tokens && ctx.blockTime >= 0
    requires ctx.blockTime + tokens[msg.denom].recoveryTimelockHours * 3600 > MAX_U64
    ensures QueueSpec(env, ctx, params, tokens, msg, id).Err?
  {
  }

  /** A queue at Unix time 1700000000 of a token with a one-hour timelock
      unlocks at 1700003600. */
  lemma QueueOneHourScenario(env: Env, ctx: Ctx, params: Params, tokens: map<string, VerifiedToken>,
                             msg: MsgQueueRecoveryTransfer, id: U64)
    requires ctx.blockTime == 1700000000
    requires msg.denom in tokens && tokens[msg.denom].recoveryTimelockHours == 1
    requires QueueSpec(env, ctx, params, tokens, msg, id).Ok?
    ensures QueueSpec(env, ctx, params, tokens, msg, id).value.executeAfter == 1700003600
  {
  }

  /** The queue: the operation is stored under the sequence's next id, the
      sequence advances by one (wrapping as a uint64), and a queued event is
      emitted. Below the top of the range the id is fresh, so no existing
      operation changes. */
  method QueueRecoveryTransfer(k: Keeper, ctx: Ctx, msg: MsgQueueRecoveryTransfer) returns (r: Result<QueueResponse>)
    requires k.Valid()
    modifies k`ops, k`opSeq, k`events
    ensures k.Valid()
    ensures var s := old(QueueSpec(k.env, ctx, k.params, k.tokens, msg, k.opSeq));
      && (s.Err? ==> r == Err(s.error) && k.ops == old(k.ops) && k.opSeq == old(k.opSeq) && k.events == old(k.events))
      && (s.Ok? ==>
            && r == Ok(QueueResponse(old(k.opSeq), Queued, s.value.executeAfter))
            && k.ops == old(k.ops)[old(k.opSeq) := s.value]
            && k.opSeq == WrapAdd(old(k.opSeq), 1)
            && k.events == old(k.events) + [RecoveryTransferQueued(old(k.opSeq), msg.denom, msg.fromAddress,
                                                                   msg.toAddress, msg.amount, s.value.executeAfter)])
    ensures old(k.SeqAhead()) && old(k.opSeq) < MAX_U64 ==>
      k.SeqAhead() && (r.Ok? ==> old(k.opSeq) !in old(k.ops))
  {
    var s := QueueSpec(k.env, ctx, k.params, k.tokens, msg, k.opSeq);
    if s.Err? {
      return Err(s.error);
    }
    QueuedOperationValid(k.env, ctx, k.params, k.tokens, msg, k.opSeq);
    var op := s.value;
    StoreQueued(k, op);
    r := Ok(QueueResponse(op.id, op.status, op.executeAfter));
  }

  /** Advancing the sequence past the operation's id, storing the operation
      and emitting its event. */
  method StoreQueued(k: Keeper, op: RecoveryOperation)
    requires k.Valid() && OperationInvariant(op.id, op) && op.id == k.opSeq
    modifies k`ops, k`opSeq, k`events
    ensures k.Valid()
    ensures k.ops == old(k.ops)[op.id := op] && k.opSeq == WrapAdd(old(k.opSeq), 1)
    ensures k.events == old(k.events) + [RecoveryTransferQueued(op.id, op.denom, op.fromAddress, op.toAddress,
                                                                op.amount, op.executeAfter)]
  {
    k.opSeq := WrapAdd(k.opSeq, 1);
    k.SetOperation(op);
    k.events := k.events + [RecoveryTransferQueued(op.id, op.denom, op.fromAddress, op.toAddress, op.amount, op.executeAfter)];
  }
}
