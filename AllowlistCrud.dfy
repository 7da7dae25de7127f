/** The authority's create, update and delete of creator allowlist entries,
    keyed by the allowed address. */
module AllowlistCrud {
  import opened Base
  import opened LoyaltyParams
  import opened Types
  import opened Policy
  import opened LoyaltyKeeper

  /** The create and update messages carry the same fields. */
  datatype MsgAllowlist = MsgAllowlist(creator: string, address: string, enabled: bool)

  datatype MsgDeleteAllowlist = MsgDeleteAllowlist(creator: string, address: string)

  /** The checks all three share, in their order: two well-formed addresses
      and the authority as signer. */
  function CheckAllowlistSigner(env: Env, creator: string, address: string): (r: Outcome)
    ensures r.Pass? <==> IsAuthority(env, creator) && IsAddress(env, address)
    ensures r.Fail? ==> r.error in {InvalidAddress, InvalidSigner}
  {
    if !IsAddress(env, creator) then Fail(InvalidAddress)
    else if !IsAddress(env, address) then Fail(InvalidAddress)
    else EnsureAuthority(env, creator)
  }

  /** CreateCreatorallowlist: the new entry, or the error; an address already
      listed is ErrInvalidRequest. */
  function CreateAllowlistSpec(env: Env, allowlist: map<string, AllowlistEntry>, msg: MsgAllowlist)
    : (r: Result<AllowlistEntry>)
    ensures r.Ok? <==> CheckAllowlistSigner(env, msg.creator, msg.address).Pass? && msg.address !in allowlist
    ensures r.Ok? ==> r.value == AllowlistEntry(msg.creator, msg.address, msg.enabled)
    ensures r.Err? && CheckAllowlistSigner(env, msg.creator, msg.address).Pass? ==> r.error == InvalidRequest
  {
    var check := CheckAllowlistSigner(env, msg.creator, msg.address);
    if check.Fail? then Err(check.error)
    else if msg.address in allowlist then Err(InvalidRequest)
    else Ok(AllowlistEntry(msg.creator, msg.address, msg.enabled))
  }

  /** UpdateCreatorallowlist: the replacement entry, or the error; a missing
      address is ErrKeyNotFound. */
  function UpdateAllowlistSpec(env: Env, allowlist: map<string, AllowlistEntry>, msg: MsgAllowlist)
    : (r: Result<AllowlistEntry>)
    ensures r.Ok? <==> CheckAllowlistSigner(env, msg.creator, msg.address).Pass? && msg.address in allowlist
    ensures r.Err? && CheckAllowlistSigner(env, msg.creator, msg.address).Pass? ==> r.error == KeyNotFound
  {
    var check := CheckAllowlistSigner(env, msg.creator, msg.address);
    if check.Fail? then Err(check.error)
    else if msg.address !in allowlist then Err(KeyNotFound)
    else Ok(AllowlistEntry(allowlist[msg.address].creator, msg.address, msg.enabled))
  }

  /** DeleteCreatorallowlist: Pass when the authority deletes a listed
      address. */
  function DeleteAllowlistSpec(env: Env, allowlist: map<string, AllowlistEntry>, msg: MsgDeleteAllowlist): (r: Outcome)
    ensures r.Pass? <==> CheckAllowlistSigner(env, msg.creator, msg.address).Pass? && msg.address in allowlist
    ensures r.Fail? && CheckAllowlistSigner(env, msg.creator, msg.address).Pass? ==> r.error == KeyNotFound
  {
    var check := CheckAllowlistSigner(env, msg.creator, msg.address);
    if check.Fail? then check
    else if msg.address !in allowlist then Fail(KeyNotFound)
    else Pass
  }

  /** Update keeps the entry's original creator and changes only the enabled
      flag. */
  lemma UpdateAllowlistSetsEnabled(env: Env, allowlist: map<string, AllowlistEntry>, msg: MsgAllowlist)
    requires AllowlistValid(allowlist)
    requires UpdateAllowlistSpec(env, allowlist, msg).Ok?
    ensures UpdateAllowlistSpec(env, allowlist, msg).value == allowlist[msg.address].(enabled := msg.enabled)
  {
  }

  /** Each of the three refuses a well-formed signer other than the
      authority, with ErrInvalidSigner. */
  lemma AllowlistCrudAuthorityOnly(env: Env, allowlist: map<string, AllowlistEntry>, msg: MsgAllowlist,
                                   del: MsgDeleteAllowlist)
    requires IsAddress(env, msg.creator) && !IsAuthority(env, msg.creator) && IsAddress(env, msg.address)
    requires IsAddress(env, del.creator) && !IsAuthority(env, del.creator) && IsAddress(env, del.address)
    ensures CreateAllowlistSpec(env, allowlist, msg) == Err(InvalidSigner)
    ensures UpdateAllowlistSpec(env, allowlist, msg) == Err(InvalidSigner)
    ensures DeleteAllowlistSpec(env, allowlist, del) == Fail(InvalidSigner)
  {
  }

  /** What the allowlist means to token creation: in allowlisted mode, after
      the authority lists an address as enabled that address may create
      tokens, and after the entry is disabled or deleted it may not (unless
      it is the authority). */
  lemma {:induction false} AllowlistGovernsCreation(env: Env, allowlist: map<string, AllowlistEntry>, address: string,
                                                    entry: AllowlistEntry)
    requires !IsAuthority(env, address) && IsAddress(env, address)
    ensures CreatorCanCreateToken(env, allowlist[address := entry], address, CREATION_MODE_ALLOWLISTED)
      == Ok(entry.enabled)
    ensures CreatorCanCreateToken(env, allowlist - {address}, address, CREATION_MODE_ALLOWLISTED) == Ok(false)
  {
  }

  method CreateCreatorAllowlist(k: Keeper, msg: MsgAllowlist) returns (r: Outcome)
    requires k.Valid()
    modifies k`allowlist
    ensures k.Valid()
    ensures var s := old(CreateAllowlistSpec(k.env, k.allowlist, msg));
      && (s.Err? ==> r == Fail(s.error) && k.allowlist == old(k.allowlist))
      && (s.Ok? ==> r == Pass && k.allowlist == old(k.allowlist)[msg.address := s.value])
  {
    var s := CreateAllowlistSpec(k.env, k.allowlist, msg);
    if s.Err? {
      return Fail(s.error);
    }
    k.SetAllowlistEntry(s.value);
    r := Pass;
  }

  method UpdateCreatorAllowlist(k: Keeper, msg: MsgAllowlist) returns (r: Outcome)
    requires k.Valid()
    modifies k`allowlist
    ensures k.Valid()
    ensures var s := old(UpdateAllowlistSpec(k.env, k.allowlist, msg));
      && (s.Err? ==> r == Fail(s.error) && k.allowlist == old(k.allowlist))
      && (s.Ok? ==> r == Pass && k.allowlist == old(k.allowlist)[msg.address := s.value])
  {
    var s := UpdateAllowlistSpec(k.env, k.allowlist, msg);
    if s.Err? {
      return Fail(s.error);
    }
    k.SetAllowlistEntry(s.value);
    r := Pass;
  }

  method DeleteCreatorAllowlist(k: Keeper, msg: MsgDeleteAllowlist) returns (r: Outcome)
    requires k.Valid()
    modifies k`allowlist
    ensures k.Valid()
    ensures var s := old(DeleteAllowlistSpec(k.env, k.allowlist, msg));
      && r == s
      && (s.Fail? ==> k.allowlist == old(k.allowlist))
      && (s.Pass? ==> k.allowlist == old(k.allowlist) - {msg.address})
  {
    r := DeleteAllowlistSpec(k.env, k.allowlist, msg);
    if r.Fail? {
      return;
    }
    k.RemoveAllowlistEntry(msg.address);
  }
}
