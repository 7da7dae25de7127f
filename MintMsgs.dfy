/** MintVerifiedToken: mint new units of a verified token against its cap,
    into the module account and on to a recipient. */
module MintMsgs {
  import opened Base
  import opened Types
  import opened Policy
  import opened LoyaltyKeeper
  import opened VerifiedTokenMsgs

  datatype MsgMintVerifiedToken = MsgMintVerifiedToken(creator: string, denom: string, recipient: string, amount: U64)

  // ----- the cap check -----

  /** The cap check as the handler writes it, `minted > max - amount` on
      uint64: the subtraction wraps when the amount exceeds the cap. */
  predicate OverCapAsWritten(minted: U64, max: U64, amount: U64)
  {
    minted > WrapSub(max, amount)
  }

  /** The cap check as intended: the new minted supply would pass the cap. */
  predicate OverCap(minted: U64, max: U64, amount: U64)
  {
    minted + amount > max
  }

  /** Where the amount fits under the cap, the written check is the
      intended one. */
  lemma CapCheckAgreesWithinCap(minted: U64, max: U64, amount: U64)
    requires amount <= max
    ensures OverCapAsWritten(minted, max, amount) <==> OverCap(minted, max, amount)
  {
  }

  /** A mint larger than the whole cap slips through the written check, so
      the stored minted supply would end above the cap. */
  lemma CapCheckWrapsAboveCap()
    ensures !OverCapAsWritten(0, 10, 100)
    ensures OverCap(0, 10, 100)
  {
  }

  /** The written check fails to reject exactly the mints of more than the
      cap over a minted supply below the wrapped difference. */
  lemma CapCheckAsWrittenMisses(minted: U64, max: U64, amount: U64)
    requires amount > max
    ensures OverCap(minted, max, amount)
    ensures !OverCapAsWritten(minted, max, amount) <==> minted <= TWO_64 - (amount - max)
  {
  }

  // ----- the handler -----

  /** MintVerifiedToken: the token record after the mint, or the error. The
      cap check is the intended one (see OverCap). */
  function MintSpec(env: Env, tokens: map<string, VerifiedToken>, msg: MsgMintVerifiedToken): (r: Result<VerifiedToken>)
    ensures r.Ok? ==>
      && msg.denom in tokens
      && r.value == tokens[msg.denom].(mintedSupply := r.value.mintedSupply)
      && r.value.mintedSupply == tokens[msg.denom].mintedSupply + msg.amount
    ensures r.Ok? && TokenInvariant(msg.denom, tokens[msg.denom]) ==> TokenInvariant(msg.denom, r.value)
  {
    if !IsAddress(env, msg.creator) then Err(AddressCodec)
    else if !IsAddress(env, msg.recipient) then Err(InvalidAddress)
    else if msg.amount == 0 then Err(InvalidRequest)
    else if !env.validDenom(msg.denom) then Err(InvalidDenom)
    else if msg.denom == env.bondDenom then Err(InvalidDenom)
    else if msg.denom !in tokens then Err(TokenNotFound)
    else
      var token := tokens[msg.denom];
      if !MayManage(env, msg.creator, token) then Err(Unauthorized)
      else if OverCap(token.mintedSupply, token.maxSupply, msg.amount) then Err(CapExceeded)
      else Ok(token.(mintedSupply := token.mintedSupply + msg.amount))
  }

  /** Every mint adds a positive amount, and only the token's creator or the
      authority may mint. */
  lemma MintAuthorized(env: Env, tokens: map<string, VerifiedToken>, msg: MsgMintVerifiedToken)
    requires MintSpec(env, tokens, msg).Ok?
    ensures msg.amount > 0 && msg.denom != env.bondDenom && env.validDenom(msg.denom)
    ensures msg.creator == tokens[msg.denom].creator || IsAuthority(env, msg.creator)
    ensures IsAddress(env, msg.recipient)
  {
  }

  /** With the signer, recipient, amount and denom in order and the signer
      allowed, the mint is refused exactly when it would pass the cap. */
  lemma MintRefusedExactlyOverCap(env: Env, tokens: map<string, VerifiedToken>, msg: MsgMintVerifiedToken)
    requires IsAddress(env, msg.creator) && IsAddress(env, msg.recipient)
    requires msg.amount > 0 && env.validDenom(msg.denom) && msg.denom != env.bondDenom
    requires msg.denom in tokens
    requires msg.creator == tokens[msg.denom].creator || IsAuthority(env, msg.creator)
    ensures MintSpec(env, tokens, msg) == Err(CapExceeded) <==>
      tokens[msg.denom].mintedSupply + msg.amount > tokens[msg.denom].maxSupply
    ensures MintSpec(env, tokens, msg).Ok? <==>
      tokens[msg.denom].mintedSupply + msg.amount <= tokens[msg.denom].maxSupply
  {
  }

  /** The early refusals, each with its own error: a zero amount, the chain's
      bond denom, an unknown denom and a signer who is neither the creator
      nor the authority. */
  lemma MintEarlyRefusals(env: Env, tokens: map<string, VerifiedToken>, msg: MsgMintVerifiedToken)
    requires IsAddress(env, msg.creator) && IsAddress(env, msg.recipient)
    ensures msg.amount == 0 ==> MintSpec(env, tokens, msg) == Err(InvalidRequest)
    ensures msg.amount > 0 && msg.denom == env.bondDenom ==> MintSpec(env, tokens, msg) == Err(InvalidDenom)
    ensures msg.amount > 0 && env.validDenom(msg.denom) && msg.denom != env.bondDenom && msg.denom !in tokens
      ==> MintSpec(env, tokens, msg) == Err(TokenNotFound)
    ensures msg.amount > 0 && env.validDenom(msg.denom) && msg.denom != env.bondDenom && msg.denom in tokens
      && msg.creator != tokens[msg.denom].creator && !IsAuthority(env, msg.creator)
      ==> MintSpec(env, tokens, msg) == Err(Unauthorized)
  {
  }

  /** The mint: coins are minted into the module account and sent to the
      recipient, then the minted supply grows by the amount; no other
      balance changes. A refused mint changes nothing. */
  method MintVerifiedToken(k: Keeper, msg: MsgMintVerifiedToken) returns (r: Outcome)
    requires k.Valid()
    modifies k`tokens, k`balances
    ensures k.Valid()
    ensures var s := old(MintSpec(k.env, k.tokens, msg));
      && (s.Err? ==> r == Fail(s.error) && k.tokens == old(k.tokens) && k.balances == old(k.balances))
      && (s.Ok? ==>
            && r == Pass
            && k.tokens == old(k.tokens)[msg.denom := s.value]
            && var recipient := k.env.addressBytes(msg.recipient).value;
            && k.balances == Transfer(old(k.balances)[(k.env.moduleAddress, msg.denom) :=
                                        old(k.Balance(k.env.moduleAddress, msg.denom)) + msg.amount],
                                      k.env.moduleAddress, recipient, msg.denom, msg.amount)
            && k.Balance(recipient, msg.denom) == old(k.Balance(recipient, msg.denom)) + msg.amount
            && (recipient != k.env.moduleAddress ==>
                  k.Balance(k.env.moduleAddress, msg.denom) == old(k.Balance(k.env.moduleAddress, msg.denom))))
  {
    var s := MintSpec(k.env, k.tokens, msg);
    if s.Err? {
      return Fail(s.error);
    }
    var recipient := k.env.addressBytes(msg.recipient).value;
    k.MintCoins(msg.denom, msg.amount);
    assert msg.amount <= k.Balance(k.env.moduleAddress, msg.denom);
    var sent := k.SendCoins(k.env.moduleAddress, recipient, msg.denom, msg.amount);
    if sent.Fail? {
      return sent;
    }
    ghost var minted := old(k.balances)[(k.env.moduleAddress, msg.denom) := old(k.Balance(k.env.moduleAddress, msg.denom)) + msg.amount];
    assert k.balances == Transfer(minted, k.env.moduleAddress, recipient, msg.denom, msg.amount);
    TransferEffect(minted, k.env.moduleAddress, recipient, msg.denom, msg.amount, recipient, msg.denom);
    TransferEffect(minted, k.env.moduleAddress, recipient, msg.denom, msg.amount, k.env.moduleAddress, msg.denom);
    k.SetToken(s.value);
    r := Pass;
  }
}
