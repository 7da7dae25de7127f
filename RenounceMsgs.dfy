/** RenounceTokenAdmin: the token's owner, or the authority, gives up the
    admin rights over the token's locked settings, once and for good. */
module RenounceMsgs {
  import opened Base
  import opened Types
  import opened LoyaltyKeeper
  import opened VerifiedTokenMsgs

  datatype MsgRenounceTokenAdmin = MsgRenounceTokenAdmin(creator: string, denom: string)

  datatype RenounceResponse = RenounceResponse(denom: string, adminRenounced: bool)

  /** RenounceTokenAdmin: the token record with the admin renounced, or the
      error. */
  function RenounceSpec(env: Env, tokens: map<string, VerifiedToken>, msg: MsgRenounceTokenAdmin)
    : (r: Result<VerifiedToken>)
    ensures r.Ok? ==>
      && env.resolveDenom(msg.denom).Some?
      && env.resolveDenom(msg.denom).value in tokens
      && r.value == tokens[env.resolveDenom(msg.denom).value].(adminRenounced := true)
    ensures r.Err? ==> r.error in {InvalidAddress, Logic, TokenNotFound, Unauthorized, AdminRenounced, AdminRenouncePolicy}
  {
    if !IsAddress(env, msg.creator) then Err(InvalidAddress)
    else
      match env.resolveDenom(msg.denom)
      case None => Err(Logic)
      case Some(denom) =>
        if denom !in tokens then Err(TokenNotFound)
        else
          var token := tokens[denom];
          if !MayManage(env, msg.creator, token) then Err(Unauthorized)
          else if token.adminRenounced then Err(AdminRenounced)
          else if token.seizureOptIn then Err(AdminRenouncePolicy)
          else Ok(token.(adminRenounced := true))
  }

  /** Renouncing is allowed only to the owner or the authority, only once and
      only with seizure off; it keeps the token invariant. */
  lemma RenounceRequires(env: Env, tokens: map<string, VerifiedToken>, msg: MsgRenounceTokenAdmin)
    requires RenounceSpec(env, tokens, msg).Ok?
    ensures var old_ := tokens[env.resolveDenom(msg.denom).value];
      && MayManage(env, msg.creator, old_)
      && !old_.adminRenounced
      && !old_.seizureOptIn
    ensures TokensValid(tokens) ==>
      && RenounceSpec(env, tokens, msg).value.denom == env.resolveDenom(msg.denom).value
      && TokenInvariant(env.resolveDenom(msg.denom).value, RenounceSpec(env, tokens, msg).value)
  {
  }

  /** With the signer and the denom in order, an owner renouncing an already
      renounced token gets ErrAdminRenounced, and one renouncing a token
      with seizure on gets ErrAdminRenouncePolicy. */
  lemma RenounceRefusals(env: Env, tokens: map<string, VerifiedToken>, msg: MsgRenounceTokenAdmin)
    requires IsAddress(env, msg.creator)
    requires env.resolveDenom(msg.denom).Some? && env.resolveDenom(msg.denom).value in tokens
    ensures var token := tokens[env.resolveDenom(msg.denom).value];
      && (!MayManage(env, msg.creator, token) ==> RenounceSpec(env, tokens, msg) == Err(Unauthorized))
      && (MayManage(env, msg.creator, token) && token.adminRenounced ==>
            RenounceSpec(env, tokens, msg) == Err(AdminRenounced))
      && (MayManage(env, msg.creator, token) && !token.adminRenounced && token.seizureOptIn ==>
            RenounceSpec(env, tokens, msg) == Err(AdminRenouncePolicy))
  {
  }

  /** Renouncing is final: once it succeeded, every later renounce of the same
      token fails, and the owner's fails with ErrAdminRenounced. */
  lemma RenounceIsFinal(env: Env, tokens: map<string, VerifiedToken>, msg: MsgRenounceTokenAdmin,
                        later: MsgRenounceTokenAdmin)
    requires TokensValid(tokens)
    requires RenounceSpec(env, tokens, msg).Ok?
    requires env.resolveDenom(later.denom) == env.resolveDenom(msg.denom)
    ensures var t := RenounceSpec(env, tokens, msg).value;
      var after := tokens[t.denom := t];
      && RenounceSpec(env, after, later).Err?
      && (IsAddress(env, later.creator) && MayManage(env, later.creator, t) ==>
            RenounceSpec(env, after, later) == Err(AdminRenounced))
  {
  }

  /** The renounce: the stored token gets its admin renounced, and the
      response names the denom. */
  method RenounceTokenAdmin(k: Keeper, msg: MsgRenounceTokenAdmin) returns (r: Result<RenounceResponse>)
    requires k.Valid()
    modifies k`tokens
    ensures k.Valid()
    ensures var s := old(RenounceSpec(k.env, k.tokens, msg));
      && (s.Err? ==> r == Err(s.error) && k.tokens == old(k.tokens))
      && (s.Ok? ==> r == Ok(RenounceResponse(s.value.denom, true)) && k.tokens == old(k.tokens)[s.value.denom := s.value])
  {
    var s := RenounceSpec(k.env, k.tokens, msg);
    if s.Err? {
      return Err(s.error);
    }
    RenounceRequires(k.env, k.tokens, msg);
    k.SetToken(s.value);
    r := Ok(RenounceResponse(s.value.denom, true));
  }
}
