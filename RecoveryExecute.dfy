/** ExecuteRecoveryTransfer: once its timelock has passed, a queued recovery
    transfer moves the funds from the source account, through the module
    account, to the destination account. */
module RecoveryExecute {
  import opened Base
  import opened Types
  import opened LoyaltyKeeper
  import opened RecoveryCancel

  datatype MsgExecuteRecoveryTransfer = MsgExecuteRecoveryTransfer(creator: string, id: U64)

  /** ExecuteRecoveryTransfer up to the bank legs: the operation as it is
      stored once executed, or the error. */
  function ExecuteSpec(env: Env, ctx: Ctx, ops: map<U64, RecoveryOperation>, tokens: map<string, VerifiedToken>,
                       msg: MsgExecuteRecoveryTransfer): (r: Result<RecoveryOperation>)
    ensures r.Ok? ==>
      && ctx.blockTime >= 0
      && msg.id in ops && ops[msg.id].status == Queued
      && r.value == ops[msg.id].(status := Executed, executedAt := ctx.blockTime, cancelReason := "")
      && IsAddress(env, r.value.fromAddress) && IsAddress(env, r.value.toAddress)
    ensures r.Err? ==> r.error in {AddressCodec, RecoveryBadRequest, KeyNotFound, RecoveryNotQueued, RecoveryTooEarly,
                                   TokenNotFound, RecoveryPolicy, InvalidAddress}
  {
    if !IsAddress(env, msg.creator) then Err(AddressCodec)
    else if ctx.blockTime < 0 then Err(RecoveryBadRequest)
    else if msg.id !in ops then Err(KeyNotFound)
    else
      var op := ops[msg.id];
      if op.status != Queued then Err(RecoveryNotQueued)
      else if ctx.blockTime < op.executeAfter then Err(RecoveryTooEarly)
      else if op.denom !in tokens then Err(TokenNotFound)
      else if !tokens[op.denom].seizureOptIn then Err(RecoveryPolicy)
      else if !IsAddress(env, op.fromAddress) then Err(InvalidAddress)
      else if !IsAddress(env, op.toAddress) then Err(InvalidAddress)
      else if op.amount == 0 then Err(RecoveryBadRequest)
      else Ok(op.(status := Executed, executedAt := ctx.blockTime, cancelReason := ""))
  }

  /** The timelock gate is inclusive: a queued operation is too early
      strictly before its unlock time, and from that second on it is not. */
  lemma ExecuteTimelockInclusive(env: Env, ctx: Ctx, ops: map<U64, RecoveryOperation>, tokens: map<string, VerifiedToken>,
                                 msg: MsgExecuteRecoveryTransfer)
    requires IsAddress(env, msg.creator) && ctx.blockTime >= 0
    requires msg.id in ops && ops[msg.id].status == Queued
    ensures ExecuteSpec(env, ctx, ops, tokens, msg) == Err(RecoveryTooEarly) <==> ctx.blockTime < ops[msg.id].executeAfter
  {
  }

  /** An execution needs the token to still have seizure on, and it keeps the
      operation invariant. */
  lemma ExecuteRequires(env: Env, ctx: Ctx, ops: map<U64, RecoveryOperation>, tokens: map<string, VerifiedToken>,
                        msg: MsgExecuteRecoveryTransfer)
    requires ExecuteSpec(env, ctx, ops, tokens, msg).Ok?
    ensures ops[msg.id].denom in tokens && tokens[ops[msg.id].denom].seizureOptIn
    ensures ops[msg.id].executeAfter <= ctx.blockTime
    ensures OperationsValid(ops) ==> OperationsValid(ops[msg.id := ExecuteSpec(env, ctx, ops, tokens, msg).value])
  {
  }

  /** The executed operation keeps its id and the operation invariant. */
  lemma ExecuteOpValid(env: Env, ctx: Ctx, ops: map<U64, RecoveryOperation>, tokens: map<string, VerifiedToken>,
                       msg: MsgExecuteRecoveryTransfer)
    requires OperationsValid(ops)
    requires ExecuteSpec(env, ctx, ops, tokens, msg).Ok?
    ensures ExecuteSpec(env, ctx, ops, tokens, msg).value.id == msg.id
    ensures OperationInvariant(msg.id, ExecuteSpec(env, ctx, ops, tokens, msg).value)
  {
  }

  /** Execution does not look at who asks: any two well-formed callers get
      the same outcome. */
  lemma ExecuteIgnoresCaller(env: Env, ctx: Ctx, ops: map<U64, RecoveryOperation>, tokens: map<string, VerifiedToken>,
                             msg: MsgExecuteRecoveryTransfer, other: MsgExecuteRecoveryTransfer)
    requires IsAddress(env, msg.creator) && IsAddress(env, other.creator) && msg.id == other.id
    ensures ExecuteSpec(env, ctx, ops, tokens, msg) == ExecuteSpec(env, ctx, ops, tokens, other)
  {
  }

  /** An operation that is no longer queued is refused with
      ErrRecoveryNotQueued by both execute and cancel, whoever asks. */
  lemma NotQueuedRefused(env: Env, ctx: Ctx, ops: map<U64, RecoveryOperation>, tokens: map<string, VerifiedToken>,
                         exec: MsgExecuteRecoveryTransfer, cancel: MsgCancelRecoveryTransfer)
    requires exec.id in ops && ops[exec.id].status != Queued && cancel.id == exec.id
    requires IsAddress(env, exec.creator) && ctx.blockTime >= 0
    requires IsAddress(env, cancel.creator) && AcceptableReason(cancel.reason)
    ensures ExecuteSpec(env, ctx, ops, tokens, exec) == Err(RecoveryNotQueued)
    ensures CancelSpec(env, ctx, ops, tokens, cancel) == Err(RecoveryNotQueued)
  {
  }

  /** Executed and Cancelled are terminal: after either, a later execute or
      cancel of the same operation fails with ErrRecoveryNotQueued. */
  lemma {:induction false} EndStatesAreTerminal(env: Env, ctx: Ctx, ops: map<U64, RecoveryOperation>,
                                                tokens: map<string, VerifiedToken>, first: MsgExecuteRecoveryTransfer,
                                                firstCancel: MsgCancelRecoveryTransfer, later: Ctx,
                                                laterTokens: map<string, VerifiedToken>,
                                                exec: MsgExecuteRecoveryTransfer, cancel: MsgCancelRecoveryTransfer)
    requires exec.id == first.id && cancel.id == first.id && firstCancel.id == first.id
    requires IsAddress(env, exec.creator) && later.blockTime >= 0
    requires IsAddress(env, cancel.creator) && AcceptableReason(cancel.reason)
    ensures ExecuteSpec(env, ctx, ops, tokens, first).Ok? ==>
      var after := ops[first.id := ExecuteSpec(env, ctx, ops, tokens, first).value];
      && ExecuteSpec(env, later, after, laterTokens, exec) == Err(RecoveryNotQueued)
      && CancelSpec(env, later, after, laterTokens, cancel) == Err(RecoveryNotQueued)
    ensures CancelSpec(env, ctx, ops, tokens, firstCancel).Ok? ==>
      var after := ops[first.id := CancelSpec(env, ctx, ops, tokens, firstCancel).value];
      && ExecuteSpec(env, later, after, laterTokens, exec) == Err(RecoveryNotQueued)
      && CancelSpec(env, later, after, laterTokens, cancel) == Err(RecoveryNotQueued)
  {
    if ExecuteSpec(env, ctx, ops, tokens, first).Ok? {
      NotQueuedRefused(env, later, ops[first.id := ExecuteSpec(env, ctx, ops, tokens, first).value], laterTokens, exec, cancel);
    }
    if CancelSpec(env, ctx, ops, tokens, firstCancel).Ok? {
      NotQueuedRefused(env, later, ops[first.id := CancelSpec(env, ctx, ops, tokens, firstCancel).value], laterTokens, exec, cancel);
    }
  }

  /** The two legs of a recovery: with three distinct accounts, the source
      loses the amount, the destination gains it and the module account ends
      where it started. */
  lemma {:induction false} RecoveryMovesFunds(balances: Balances, from: Bytes, to: Bytes, pool: Bytes, denom: string, amount: nat)
    requires amount <= BalanceOf(balances, from, denom)
    requires from != to && from != pool && to != pool
    ensures var collected := Transfer(balances, from, pool, denom, amount);
      amount <= BalanceOf(collected, pool, denom)
    ensures var collected := Transfer(balances, from, pool, denom, amount);
      var delivered := Transfer(collected, pool, to, denom, amount);
      && BalanceOf(delivered, from, denom) == BalanceOf(balances, from, denom) - amount
      && BalanceOf(delivered, to, denom) == BalanceOf(balances, to, denom) + amount
      && BalanceOf(delivered, pool, denom) == BalanceOf(balances, pool, denom)
  {
    var collected := Transfer(balances, from, pool, denom, amount);
    TransferEffect(balances, from, pool, denom, amount, from, denom);
    TransferEffect(balances, from, pool, denom, amount, to, denom);
    TransferEffect(balances, from, pool, denom, amount, pool, denom);
    TransferEffect(collected, pool, to, denom, amount, from, denom);
    TransferEffect(collected, pool, to, denom, amount, to, denom);
    TransferEffect(collected, pool, to, denom, amount, pool, denom);
  }

  /** The balances after the two bank legs of an execution, or None when
      the source holds less than the amount. */
  function RecoveryLegs(env: Env, balances: Balances, op: RecoveryOperation): (r: Option<Balances>)
    requires IsAddress(env, op.fromAddress) && IsAddress(env, op.toAddress)
    ensures r.None? <==> op.amount > BalanceOf(balances, env.addressBytes(op.fromAddress).value, op.denom)
  {
    var from := env.addressBytes(op.fromAddress).value;
    var to := env.addressBytes(op.toAddress).value;
    if op.amount > BalanceOf(balances, from, op.denom) then None
    else Some(Transfer(Transfer(balances, from, env.moduleAddress, op.denom, op.amount), env.moduleAddress, to, op.denom, op.amount))
  }

  /** The two bank legs: collect the amount into the module account, then
      deliver it. A failed collection changes nothing; the delivery cannot
      fail once the collection succeeded. */
  method CollectAndDeliver(k: Keeper, op: RecoveryOperation) returns (r: Outcome)
    requires IsAddress(k.env, op.fromAddress) && IsAddress(k.env, op.toAddress)
    modifies k`balances
    ensures var legs := RecoveryLegs(k.env, old(k.balances), op);
      && (legs.None? ==> r == Fail(InsufficientFunds) && k.balances == old(k.balances))
      && (legs.Some? ==> r == Pass && k.balances == legs.value)
  {
    var from := k.env.addressBytes(op.fromAddress).value;
    var to := k.env.addressBytes(op.toAddress).value;
    r := k.SendCoins(from, k.env.moduleAddress, op.denom, op.amount);
    if r.Fail? {
      return;
    }
    TransferCredits(old(k.balances), from, k.env.moduleAddress, op.denom, op.amount);
    r := k.SendCoins(k.env.moduleAddress, to, op.denom, op.amount);
  }

  /** Stores the executed operation and emits its event. */
  method StoreExecuted(k: Keeper, op: RecoveryOperation)
    requires k.Valid() && OperationInvariant(op.id, op)
    modifies k`ops, k`events
    ensures k.Valid()
    ensures k.ops == old(k.ops)[op.id := op]
    ensures k.events == old(k.events) + [RecoveryTransferExecuted(op.id, op.denom, op.fromAddress, op.toAddress,
                                                                  op.amount, op.executedAt)]
  {
    k.SetOperation(op);
    k.events := k.events + [RecoveryTransferExecuted(op.id, op.denom, op.fromAddress, op.toAddress, op.amount, op.executedAt)];
  }

  /** The execution: the amount is collected from the source into the module
      account and delivered on to the destination; then the operation is
      stored executed and an executed event is emitted. A failed collection
      changes nothing. */
  method ExecuteRecoveryTransfer(k: Keeper, ctx: Ctx, msg: MsgExecuteRecoveryTransfer) returns (r: Outcome)
    requires k.Valid()
    modifies k`ops, k`balances, k`events
    ensures k.Valid()
    ensures var s := old(ExecuteSpec(k.env, ctx, k.ops, k.tokens, msg));
      && (s.Err? ==> r == Fail(s.error) && k.ops == old(k.ops) && k.balances == old(k.balances) && k.events == old(k.events))
      && (s.Ok? ==>
            var op := s.value;
            var legs := RecoveryLegs(k.env, old(k.balances), op);
            && (legs.None? ==>
                  r == Fail(InsufficientFunds) && k.ops == old(k.ops) && k.balances == old(k.balances)
                  && k.events == old(k.events))
            && (legs.Some? ==>
                  && r == Pass
                  && k.balances == legs.value
                  && k.ops == old(k.ops)[msg.id := op]
                  && k.events == old(k.events) + [RecoveryTransferExecuted(msg.id, op.denom, op.fromAddress, op.toAddress,
                                                                          op.amount, op.executedAt)]))
  {
    var s := ExecuteSpec(k.env, ctx, k.ops, k.tokens, msg);
    if s.Err? {
      return Fail(s.error);
    }
    var op := s.value;
    ExecuteOpValid(k.env, ctx, k.ops, k.tokens, msg);
    ghost var before := k.ops;
    r := CollectAndDeliver(k, op);
    assert k.Valid() && k.ops == before;
    if r.Fail? {
      return;
    }
    StoreExecuted(k, op);
  }
}
