/** CancelRecoveryTransfer: the token's recovery group policy, or the
    authority, cancels a queued recovery transfer, giving a reason. */
module RecoveryCancel {
  import opened Base
  import opened Strings
  import opened Types
  import opened LoyaltyKeeper
  import opened RecoveryQueue

  datatype MsgCancelRecoveryTransfer = MsgCancelRecoveryTransfer(creator: string, id: U64, reason: string)

  datatype CancelResponse = CancelResponse(id: U64, status: RecoveryStatus, cancelledAt: U64)

  /** A cancel reason is kept trimmed, and must be non-empty and at most 512
      bytes. */
  predicate AcceptableReason(reason: string)
  {
    var t := TrimSpace(reason);
    t != "" && Utf8Len(t) <= MAX_CANCEL_REASON_BYTES
  }

  /** CancelRecoveryTransfer: the cancelled operation, or the error. */
  function CancelSpec(env: Env, ctx: Ctx, ops: map<U64, RecoveryOperation>, tokens: map<string, VerifiedToken>,
                      msg: MsgCancelRecoveryTransfer): (r: Result<RecoveryOperation>)
    ensures r.Ok? ==>
      && ctx.blockTime >= 0
      && msg.id in ops && ops[msg.id].status == Queued
      && r.value == ops[msg.id].(status := Cancelled, cancelledAt := ctx.blockTime, cancelReason := TrimSpace(msg.reason))
    ensures r.Err? ==> r.error in {AddressCodec, RecoveryBadRequest, KeyNotFound, RecoveryNotQueued, TokenNotFound,
                                   RecoveryUnauthorized}
  {
    if !IsAddress(env, msg.creator) then Err(AddressCodec)
    else
      var reason := TrimSpace(msg.reason);
      if reason == "" then Err(RecoveryBadRequest)
      else if Utf8Len(reason) > MAX_CANCEL_REASON_BYTES then Err(RecoveryBadRequest)
      else if msg.id !in ops then Err(KeyNotFound)
      else
        var op := ops[msg.id];
        if op.status != Queued then Err(RecoveryNotQueued)
        else if op.denom !in tokens then Err(TokenNotFound)
        else if !MayRecover(env, msg.creator, tokens[op.denom]) then Err(RecoveryUnauthorized)
        else if ctx.blockTime < 0 then Err(RecoveryBadRequest)
        else Ok(op.(status := Cancelled, cancelledAt := ctx.blockTime, cancelReason := reason))
  }

  /** Cancelling a queued operation with an acceptable reason keeps the
      operation invariant. */
  lemma CancelKeepsInvariant(id: U64, op: RecoveryOperation, now: U64, reason: string)
    requires OperationInvariant(id, op) && op.status == Queued
    requires AcceptableReason(reason)
    ensures OperationInvariant(id, op.(status := Cancelled, cancelledAt := now, cancelReason := TrimSpace(reason)))
  {
  }

  /** A stored cancel reason is its own trimming. */
  lemma StoredReasonTrimmed(ops: map<U64, RecoveryOperation>, id: U64)
    requires OperationsValid(ops) && id in ops && ops[id].status == Cancelled
    ensures TrimSpace(ops[id].cancelReason) == ops[id].cancelReason
  {
    TrimSpaceNoop(ops[id].cancelReason);
  }

  /** Only a queued operation is cancelled, only by the token's recovery
      policy or the authority, only with an acceptable reason; the cancelled
      operation keeps the operation invariant. */
  lemma CancelRequires(env: Env, ctx: Ctx, ops: map<U64, RecoveryOperation>, tokens: map<string, VerifiedToken>,
                       msg: MsgCancelRecoveryTransfer)
    requires CancelSpec(env, ctx, ops, tokens, msg).Ok?
    ensures AcceptableReason(msg.reason)
    ensures ops[msg.id].denom in tokens && MayRecover(env, msg.creator, tokens[ops[msg.id].denom])
    ensures OperationsValid(ops) ==>
      var op := CancelSpec(env, ctx, ops, tokens, msg).value;
      op.id == msg.id && OperationInvariant(op.id, op)
  {
    if OperationsValid(ops) {
      CancelKeepsInvariant(msg.id, ops[msg.id], ctx.blockTime, msg.reason);
    }
  }

  /** An empty or overlong reason is refused before anything is looked up;
      an operation that is no longer queued is refused with
      ErrRecoveryNotQueued whoever asks, since the status is checked before
      the caller. */
  lemma CancelRefusals(env: Env, ctx: Ctx, ops: map<U64, RecoveryOperation>, tokens: map<string, VerifiedToken>,
                       msg: MsgCancelRecoveryTransfer)
    requires IsAddress(env, msg.creator)
    ensures !AcceptableReason(msg.reason) ==> CancelSpec(env, ctx, ops, tokens, msg) == Err(RecoveryBadRequest)
    ensures AcceptableReason(msg.reason) && msg.id !in ops ==> CancelSpec(env, ctx, ops, tokens, msg) == Err(KeyNotFound)
    ensures AcceptableReason(msg.reason) && msg.id in ops && ops[msg.id].status != Queued ==>
      CancelSpec(env, ctx, ops, tokens, msg) == Err(RecoveryNotQueued)
  {
  }

  /** The cancel: the operation is stored cancelled, at the block time and
      with the trimmed reason, and a cancelled event is emitted. */
  method CancelRecoveryTransfer(k: Keeper, ctx: Ctx, msg: MsgCancelRecoveryTransfer) returns (r: Result<CancelResponse>)
    requires k.Valid()
    modifies k`ops, k`events
    ensures k.Valid()
    ensures var s := old(CancelSpec(k.env, ctx, k.ops, k.tokens, msg));
      && (s.Err? ==> r == Err(s.error) && k.ops == old(k.ops) && k.events == old(k.events))
      && (s.Ok? ==>
            && r == Ok(CancelResponse(msg.id, Cancelled, s.value.cancelledAt))
            && k.ops == old(k.ops)[msg.id := s.value]
            && k.events == old(k.events) + [RecoveryTransferCancelled(msg.id, s.value.denom, s.value.cancelledAt,
                                                                      s.value.cancelReason)])
  {
    var s := CancelSpec(k.env, ctx, k.ops, k.tokens, msg);
    if s.Err? {
      return Err(s.error);
    }
    CancelRequires(k.env, ctx, k.ops, k.tokens, msg);
    var op := s.value;
    StoreCancelled(k, op);
    r := Ok(CancelResponse(op.id, op.status, op.cancelledAt));
  }

  /** Writing the cancelled operation back and emitting its event. */
  method StoreCancelled(k: Keeper, op: RecoveryOperation)
    requires k.Valid() && OperationInvariant(op.id, op)
    modifies k`ops, k`events
    ensures k.Valid()
    ensures k.ops == old(k.ops)[op.id := op]
    ensures k.events == old(k.events) + [RecoveryTransferCancelled(op.id, op.denom, op.cancelledAt, op.cancelReason)]
  {
    k.SetOperation(op);
    k.events := k.events + [RecoveryTransferCancelled(op.id, op.denom, op.cancelledAt, op.cancelReason)];
  }
}
