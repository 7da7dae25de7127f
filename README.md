# The x/loyalty keeper, modelled in Dafny

The `x/loyalty` module is part of the tokenchain Cosmos SDK chain. It keeps
a registry of verified business tokens. Each token has its own rules:
- a supply cap and a count of what has been minted;
- an optional admin recovery (seizure) policy run by a group policy
  behind a timelock;
- whether its admin has been renounced;
- how its merchant-incentive bucket ("bucket C") is split between token
  stakers and the merchant treasury.

Beside the registry the module keeps several ledgers:
- reward accruals per `address|denom`, which the governance authority
  credits and the account later claims in full;
- merchant allocations per day and denom;
- the creator allowlist, which decides who may create tokens in
  `allowlisted` mode;
- the recovery operations queue.

A daily rollup clock records the last local date (in the configured time
zone) on which the rollup ran.

The model holds the keeper's state in one class, `LoyaltyKeeper.Keeper`. It
has a field per store collection, plus the bank balances and the event log.
`Keeper.Valid()` is the invariant the handlers keep:
- minted never exceeds the cap (with the corrected cap check described
  under "## Findings"; the cap check as written does not keep it);
- stored routing splits sum to 10000 bps (or are the legacy 0/0);
- seizure requires a recovery policy;
- a renounced admin excludes seizure;
- a recovery operation's timestamps and reason match its status;
- every record sits under its own key.

Every message handler is modelled in two parts:
- a pure specification function (`CreateSpec`, `MintSpec`, `QueueSpec`, …),
  whose branches follow the Go code check by check, with the same errors,
  except for the three uint64 wrap-arounds under "## Findings": there the
  specification uses the corrected arithmetic (see "## Left out");
- a method on the keeper, which requires and ensures `Valid()`, changes only
  the fields its `modifies` clause names, and ties the new state and its
  result to the specification function.

Lemmas state what the handlers promise:
- who may act;
- which input gets which error;
- round trips;
- no overwrites;
- terminal recovery states;
- conservation of funds;
- pagination without gaps.

The collaborators the keeper calls but does not own are fields of `Types.Env`:
- the address codec;
- the authority;
- `sdk.ValidateDenom`;
- the group policy registry;
- time zone loading and local dates;
- the bond denom;
- the module account.

The chain id and the block time are a per-call `Types.Ctx`.

## Model

| member | source | states |
|---|---|---|
| Base.WrapAdd | x/loyalty/keeper/msg_server_record_reward_accrual.go:65 | Go's unchecked uint64 `+`: the exact sum when it fits, otherwise the sum less 2^64, which is smaller than the first operand |
| Base.WrapSub | x/loyalty/keeper/msg_server_mint_verified_token.go:47 | Go's unchecked uint64 `-`: the exact difference when it is not negative, otherwise the difference plus 2^64, which is larger than the first operand |
| Base.WrapMul | x/loyalty/keeper/msg_server_record_merchant_allocation.go:62 | Go's unchecked uint64 `*`: the exact product when it fits, and always congruent to it modulo 2^64 |
| Strings.TrimSpace | x/loyalty/keeper/msg_server_cancel_recovery_transfer.go:21 | strings.TrimSpace: the result neither starts nor ends with white space and is an infix of the input with only white space around it |
| Strings.TrimSpaceNoop | x/loyalty/keeper/msg_server_cancel_recovery_transfer.go:21-22 | a string that neither starts nor ends with white space is its own trimming |
| Strings.TrimSpaceIdempotent | x/loyalty/keeper/query_recoveryoperation_filter.go:20-30 | trimming twice is trimming once |
| Strings.ToLowerAscii | x/loyalty/keeper/policy.go:77 | strings.ToLower on ASCII: same length, upper-case letters mapped to lower case, every other character kept |
| Strings.Split | x/loyalty/keeper/tokenfactory_denom.go:97 | strings.Split on one separator: one piece more than there are separators, no piece contains the separator, and joining the pieces gives the input back |
| Strings.SplitJoin | x/loyalty/keeper/tokenfactory_denom.go:97 | splitting a join of separator-free pieces gives the pieces back |
| Strings.Utf8Len | x/loyalty/keeper/msg_server_cancel_recovery_transfer.go:25 | Go's `len` on a string counts UTF-8 bytes: between one and four per character |
| Strings.FormatUint | x/loyalty/keeper/query_recoveryoperation_filter.go:88 | strconv.FormatUint base 10: a non-empty digit string with no leading zero |
| Strings.FormatUintValue | x/loyalty/keeper/query_recoveryoperation_filter.go:88 | the formatted numeral denotes the number |
| Strings.ParseUint | x/loyalty/keeper/query_recoveryoperation_filter.go:61-64 | strconv.ParseUint base 10, 64 bits: succeeds exactly on non-empty digit strings whose value fits in uint64, with that value |
| Strings.ParseFormatUint | x/loyalty/keeper/query_recoveryoperation_filter.go:61-88 | parsing a formatted uint64 gives it back, so a next key reads back as the position it encodes |
| Dates.DaysIn | x/loyalty/keeper/query_daily_rollup_status.go:44 | every month has 28 to 31 days |
| Dates.NextDay | x/loyalty/keeper/query_daily_rollup_status.go:44 | `AddDate(0, 0, 1)` on a calendar date: a valid date whose day number is one more |
| Dates.OrdinalInjective | x/loyalty/keeper/query_daily_rollup_status.go:44 | distinct valid dates have distinct day numbers, so NextDay is the unique next date |
| Dates.FormatDate | x/loyalty/keeper/daily_rollup.go:16-30 | the "2006-01-02" layout: at least ten characters |
| Dates.FormatDateFields | x/loyalty/keeper/daily_rollup.go:16-30 | a formatted date has the layout and reads back as the date |
| Dates.FormatDateInjective | x/loyalty/keeper/daily_rollup.go:30-33 | distinct dates format differently, so comparing rollup dates as strings compares the dates |
| Dates.ParseDate | x/loyalty/keeper/msg_server_record_merchant_allocation.go:46-47 | time.Parse with "2006-01-02": what it accepts is a valid calendar date with a four-digit year |
| Dates.ParseFormatDate | x/loyalty/keeper/query_daily_rollup_status.go:42-44 | a formatted date with a four-digit year parses back to itself |
| Dates.FormatParseDate | x/loyalty/keeper/msg_server_record_merchant_allocation.go:46 | whatever parses is exactly the formatting of its result, so an accepted date string is canonical |
| LoyaltyParams.DefaultParams | x/loyalty/types/params.go:70-81 | the defaults are admin-only creation with seizure off by default |
| LoyaltyParams.ValidateCreationMode | x/loyalty/types/params.go:129-136 | passes exactly the three mode names |
| LoyaltyParams.Validate | x/loyalty/types/params.go:84-126 | passes exactly for a known mode, a loadable non-empty zone, positive timelocks with mainnet at least testnet, and fee shares each within 10000 that sum to 10000 |
| LoyaltyParams.DefaultParamsValid | x/loyalty/types/params.go:17-81 | the defaults validate wherever the default zone loads |
| LoyaltyParams.ValidateMerchantIncentiveRouting | x/loyalty/types/params.go:196-207 | passes exactly for a split of two shares that sum to 10000 bps |
| LoyaltyParams.DefaultMerchantRoutingValid | x/loyalty/types/params.go:40-44 | the default 5000/5000 split validates |
| Types.StatusName | x/loyalty/keeper/query_recoveryoperation_filter.go:20-25 | each status name is non-empty and survives trimming |
| Types.StatusNameInjective | x/loyalty/keeper/query_recoveryoperation_filter.go:21-34 | distinct statuses have distinct names, so the status filter selects one status |
| Types.RewardAccrualKey | x/loyalty/keeper/policy.go:72-74 | the key is address, a vertical bar, then denom |
| Types.MerchantAllocationKey | x/loyalty/keeper/msg_server_record_merchant_allocation.go:64 | the key is date, a vertical bar, then denom |
| Types.TokenInvariant | x/loyalty/keeper/msg_server_verifiedtoken.go:137 | a stored token sits under its denom, minted stays within the cap (as the update refuses a cap below minted), its routing is a stored split, seizure comes exactly with a policy, and renouncing excludes seizure |
| Types.TokensValidUpdate | x/loyalty/keeper/keeper.go:61 | storing a token that keeps the token invariant keeps the table valid |
| Types.OperationsValidUpdate | x/loyalty/keeper/keeper.go:61 | storing an operation that keeps the operation invariant keeps the table valid |
| Types.AccrualsValidUpdate | x/loyalty/keeper/keeper.go:61 | storing an accrual that keeps the accrual invariant keeps the table valid |
| Types.AllocationsValidUpdate | x/loyalty/keeper/msg_server_record_merchant_allocation.go:84 | storing an allocation that keeps the allocation invariant keeps the table valid |
| Policy.EnsureAuthority | x/loyalty/keeper/policy.go:27-38 | passes exactly for the authority; an undecodable signer is ErrInvalidAddress, any other ErrInvalidSigner |
| Policy.CreatorCanCreateToken | x/loyalty/keeper/policy.go:48-70 | true exactly for the authority, permissionless mode, or an enabled allowlist entry in allowlisted mode; an unknown mode is an error only for non-authorities |
| Policy.IsTestnetChain | x/loyalty/keeper/policy.go:77-78 | a chain id is a test network when its lower-cased form is empty or mentions testnet or localnet |
| Policy.MinimumRecoveryTimelockHours | x/loyalty/keeper/policy.go:76-82 | the testnet minimum on chains whose lower-cased id is empty or mentions testnet or localnet, the mainnet minimum elsewhere |
| Policy.MinimumTimelockBounds | x/loyalty/keeper/policy.go:76-82 | under valid parameters the minimum is positive and at most the mainnet minimum, which every non-test chain gets |
| Policy.MentionMakesTestnet | x/loyalty/keeper/policy.go:77-78 | a chain id containing testnet or localnet counts as a test network |
| Policy.TestnetIgnoresCase | x/loyalty/keeper/policy.go:77 | the network kind does not depend on letter case |
| Policy.EnsureGroupPolicyExists | x/loyalty/keeper/policy.go:108-119 | passes exactly when a group keeper is wired in and knows the policy; ErrLogic exactly when none is wired in |
| Policy.RecoverySettingsAcceptable | x/loyalty/keeper/policy.go:89-103 | seizure settings pass when the trimmed policy is non-empty, decodes, is a known group policy, and the timelock reaches the network minimum |
| Policy.ValidateRecoverySettings | x/loyalty/keeper/policy.go:84-106 | without seizure the settings are cleared to ""/0; with seizure they are accepted exactly for a trimmed, decodable, registered policy and a timelock at the network minimum, and stored trimmed |
| Policy.NormalizeMerchantIncentiveRouting | x/loyalty/keeper/policy.go:121-127 | only a legacy 0/0 split changes, to 5000/5000; no other field changes; a stored split becomes a valid one |
| Policy.NormalizeIdempotent | x/loyalty/keeper/policy.go:121-127 | normalising twice is normalising once and keeps the token invariant |
| Policy.RewardAccrualKeyInjective | x/loyalty/keeper/policy.go:72-74 | for addresses without a vertical bar, distinct (address, denom) pairs get distinct keys |
| TokenFactoryDenom.FactoryDenom | x/loyalty/keeper/tokenfactory_denom.go:16-18 | the denom is `factory/{issuer}/{subdenom}` |
| TokenFactoryDenom.ValidateSubdenom | x/loyalty/keeper/tokenfactory_denom.go:20 | passes exactly for the subdenom pattern; a passing subdenom has no `/` and no surrounding space |
| TokenFactoryDenom.SplitTokenFactoryDenom | x/loyalty/keeper/tokenfactory_denom.go:96-105 | succeeds only on three `/`-separated parts with the factory prefix and non-empty issuer and subdenom, returning those two |
| TokenFactoryDenom.SplitFactoryDenom | x/loyalty/keeper/tokenfactory_denom.go:96-105 | splitting a built factory denom gives back its issuer and subdenom |
| TokenFactoryDenom.SplitFactoryDenomIssuer | x/loyalty/keeper/tokenfactory_denom.go:96-105 | a built denom never splits at another issuer |
| TokenFactoryDenom.ValidateTokenFactoryDenom | x/loyalty/keeper/tokenfactory_denom.go:52-69 | passes exactly for a valid denom that splits into a decodable issuer and a pattern-conforming subdenom; otherwise ErrInvalidDenom or ErrInvalidAddress |
| TokenFactoryDenom.CanonicalBusinessDenom | x/loyalty/keeper/tokenfactory_denom.go:22-50 | its errors are ErrInvalidDenom, ErrInvalidAddress or ErrInvalidRequest |
| TokenFactoryDenom.CanonicalBusinessDenomShape | x/loyalty/keeper/tokenfactory_denom.go:22-50 | an empty or all-space input is ErrInvalidDenom; a result passes validateTokenFactoryDenom; a full factory denom is kept as trimmed and a subdenom is prefixed with the issuer; a full denom of another issuer is ErrInvalidRequest |
| TokenFactoryDenom.SubdenomHasNoFactoryPrefix | x/loyalty/keeper/tokenfactory_denom.go:20-28 | a string matching the subdenom pattern never starts with the factory prefix, so canonicalisation treats it as a subdenom |
| TokenFactoryDenom.CanonicalBusinessDenomAccepts | x/loyalty/keeper/tokenfactory_denom.go:22-50 | the success direction: a trimmed subdenom matching the pattern whose factory denom under the issuer validates becomes that factory denom, and a validating factory denom of the same issuer is returned as trimmed |
| TokenFactoryDenom.CanonicalOfFactoryDenom | x/loyalty/keeper/tokenfactory_denom.go:28-41 | a trimmed factory denom of the issuer that validates is its own canonical form |
| TokenFactoryDenom.CanonicalBusinessDenomIdempotent | x/loyalty/keeper/tokenfactory_denom.go:22-50 | canonicalisation is idempotent: a canonical denom canonicalises to itself under the same issuer |
| TokenFactoryDenom.CanonicalDenomRoundTrip | x/loyalty/keeper/tokenfactory_denom.go:22-50 | every canonical denom splits back at the given issuer; a bare subdenom splits back to the trimmed subdenom |
| TokenFactoryDenom.ResolveStoredDenom | x/loyalty/keeper/tokenfactory_denom.go:71-94 | a stored or full factory denom resolves to itself; otherwise to the creator's factory denom when that is stored |
| LoyaltyKeeper.Transfer | x/loyalty/keeper/msg_server_execute_recovery_transfer.go:65-70 | a bank send touches only the sender's and the recipient's balances of that denom |
| LoyaltyKeeper.TransferEffect | x/loyalty/keeper/msg_server_execute_recovery_transfer.go:65-70 | the sender loses and the recipient gains the amount; every other balance is unchanged |
| LoyaltyKeeper.TransferCredits | x/loyalty/keeper/msg_server_claim_reward.go:56 | after a send the recipient holds at least the amount |
| LoyaltyKeeper.TransferConserves | x/loyalty/keeper/msg_server_execute_recovery_transfer.go:65-70 | a send between two accounts conserves their total |
| LoyaltyKeeper.Keeper.constructor | x/loyalty/keeper/keeper.go:35-71 | a fresh keeper has empty tables, sequence 0, no rollup date, and is valid |
| LoyaltyKeeper.Keeper.SetToken | x/loyalty/keeper/keeper.go:61 | Verifiedtoken.Set: the token replaces the entry at its denom, and validity is kept |
| LoyaltyKeeper.Keeper.RemoveToken | x/loyalty/keeper/msg_server_verifiedtoken.go:227-229 | Verifiedtoken.Remove: exactly that denom goes, and validity is kept |
| LoyaltyKeeper.Keeper.SetOperation | x/loyalty/keeper/keeper.go:61 | Recoveryoperation.Set: the operation replaces the entry at its id, and validity is kept |
| LoyaltyKeeper.Keeper.SetAccrual | x/loyalty/keeper/keeper.go:61 | Rewardaccrual.Set at the record's key, and validity is kept |
| LoyaltyKeeper.Keeper.RemoveAccrual | x/loyalty/keeper/msg_server_claim_reward.go:59-61 | Rewardaccrual.Remove: exactly that key goes |
| LoyaltyKeeper.Keeper.SetAllocation | x/loyalty/keeper/msg_server_record_merchant_allocation.go:84-86 | Merchantallocation.Set at the record's key, and validity is kept |
| LoyaltyKeeper.Keeper.SetAllowlistEntry | x/loyalty/keeper/keeper.go:61 | Creatorallowlist.Set at the entry's address |
| LoyaltyKeeper.Keeper.RemoveAllowlistEntry | x/loyalty/keeper/msg_server_creatorallowlist.go:81-107 | Creatorallowlist.Remove: exactly that address goes |
| LoyaltyKeeper.Keeper.MintCoins | x/loyalty/keeper/msg_server_mint_verified_token.go:51-54 | minting credits the module account with the amount and changes no other balance |
| LoyaltyKeeper.Keeper.SendCoins | x/loyalty/keeper/msg_server_mint_verified_token.go:55-57 | a send beyond the sender's balance fails and changes nothing; otherwise it is Transfer |
| VerifiedTokenMsgs.EffectiveIssuer | x/loyalty/keeper/msg_server_verifiedtoken.go:21-23 | the issuer defaults to the creator when empty |
| VerifiedTokenMsgs.CreateSpec | x/loyalty/keeper/msg_server_verifiedtoken.go:16-98 | a created token is new and keeps the token invariant: the signer as creator, the effective issuer, the message's positive cap, nothing minted, not renounced, the default 5000/5000 routing, the message's seizure flag; ErrInvalidCap only for a zero cap, ErrCreatorNotAllowed only when the creation mode refuses the signer |
| VerifiedTokenMsgs.CreateNeverOverwrites | x/loyalty/keeper/msg_server_verifiedtoken.go:51-57 | a create for a denom that is already stored fails |
| VerifiedTokenMsgs.CreateAdmitsOnly | x/loyalty/keeper/msg_server_verifiedtoken.go:17-49 | a create succeeds only for a decodable creator and issuer whom the creation mode admits |
| VerifiedTokenMsgs.CreateStoresCanonical | x/loyalty/keeper/msg_server_verifiedtoken.go:27-88 | the token is stored under the canonical factory denom of the effective issuer, with the recovery settings exactly as validateRecoverySettings returns them |
| VerifiedTokenMsgs.CreateRejectsBadSupply | x/loyalty/keeper/msg_server_verifiedtoken.go:32-37 | a zero cap is ErrInvalidCap; a non-zero initial minted supply is ErrInvalidRequest |
| VerifiedTokenMsgs.CreateVerifiedToken | x/loyalty/keeper/msg_server_verifiedtoken.go:16-98 | on success the token is added under its canonical denom and nothing else changes; on error nothing changes |
| VerifiedTokenMsgs.MayManage | x/loyalty/keeper/msg_server_verifiedtoken.go:153-154 | the token's creator or the authority may manage it |
| VerifiedTokenMsgs.UpdateGuards | x/loyalty/keeper/msg_server_verifiedtoken.go:131-156 | the update checks in their order: passes exactly for a matching issuer, a cap not below minted, seizure not switched on after minting, locked settings unchanged once renounced, and an owner or the authority as signer |
| VerifiedTokenMsgs.UpdateSpec | x/loyalty/keeper/msg_server_verifiedtoken.go:100-196 | a successful update rewrites the record at the resolved stored denom, keeps its creator, its minted supply (within the new cap) and its renounced flag, and keeps the token invariant |
| VerifiedTokenMsgs.UpdateKeepsOwnership | x/loyalty/keeper/msg_server_verifiedtoken.go:152-156 | a successful update was signed by the token's creator or the authority, and the creator does not change |
| VerifiedTokenMsgs.UpdateSeizureOnlyBeforeMint | x/loyalty/keeper/msg_server_verifiedtoken.go:140-142 | seizure can be switched on only while nothing is minted |
| VerifiedTokenMsgs.UpdateErrorCauses | x/loyalty/keeper/msg_server_verifiedtoken.go:131-167 | the renounce check comes before the owner check: ErrAdminRenounced only for a renounced token whose cap or recovery settings would change, ErrUnauthorized only for a stranger the renounce check let through, ErrInvalidCap only for a cap below the minted supply |
| VerifiedTokenMsgs.UpdateErrorFromGuards | x/loyalty/keeper/msg_server_verifiedtoken.go:121-160 | once the signer decodes and the token is found, ErrUnauthorized, ErrAdminRenounced and ErrInvalidCap are exactly the guards' refusal on the normalised stored token |
| VerifiedTokenMsgs.UpdateKeepsRenouncedSettings | x/loyalty/keeper/msg_server_verifiedtoken.go:143-150 | an update of a renounced token leaves its cap and recovery settings unchanged |
| VerifiedTokenMsgs.UpdateVerifiedToken | x/loyalty/keeper/msg_server_verifiedtoken.go:100-196 | on success only the resolved denom's record is replaced; on error nothing changes |
| VerifiedTokenMsgs.DeleteSpec | x/loyalty/keeper/msg_server_verifiedtoken.go:198-232 | a delete succeeds only for a stored token with nothing minted, signed by its creator or the authority; a denom that is not stored is ErrKeyNotFound, a minted token ErrInvalidRequest, a stranger ErrUnauthorized |
| VerifiedTokenMsgs.DeleteVerifiedToken | x/loyalty/keeper/msg_server_verifiedtoken.go:198-232 | on success exactly that denom is removed; on error nothing changes |
| MintMsgs.CapCheckAgreesWithinCap | x/loyalty/keeper/msg_server_mint_verified_token.go:47 | where the amount is at most the cap, the check as written is the intended cap check |
| MintMsgs.CapCheckWrapsAboveCap | x/loyalty/keeper/msg_server_mint_verified_token.go:47 | minting 100 of a cap-10 token with nothing minted passes the check as written, though it exceeds the cap |
| MintMsgs.CapCheckAsWrittenMisses | x/loyalty/keeper/msg_server_mint_verified_token.go:47 | a mint above the whole cap is always over the cap, and the written check misses it exactly when the wrapped difference is at least the minted supply |
| MintMsgs.OverCapAsWritten | x/loyalty/keeper/msg_server_mint_verified_token.go:47 | the cap check as written: minted exceeds the cap minus the amount, with the subtraction wrapping on uint64 |
| MintMsgs.OverCap | x/loyalty/keeper/msg_server_mint_verified_token.go:47 | the cap check as intended: minted plus the amount exceeds the cap |
| MintMsgs.MintSpec | x/loyalty/keeper/msg_server_mint_verified_token.go:16-65 | a successful mint adds the amount to the minted supply, changes nothing else and, with the corrected cap check, keeps minted within the cap |
| MintMsgs.MintAuthorized | x/loyalty/keeper/msg_server_mint_verified_token.go:17-45 | a successful mint has a positive amount of a valid non-bond denom, a decodable recipient, and the creator or the authority as signer |
| MintMsgs.MintRefusedExactlyOverCap | x/loyalty/keeper/msg_server_mint_verified_token.go:47-49 | once the earlier checks pass, the mint is ErrCapExceeded exactly when minted plus amount passes the cap, and succeeds otherwise |
| MintMsgs.MintEarlyRefusals | x/loyalty/keeper/msg_server_mint_verified_token.go:24-44 | a zero amount, the bond denom, an unknown token and a stranger each get their own error |
| MintMsgs.MintVerifiedToken | x/loyalty/keeper/msg_server_mint_verified_token.go:16-65 | on success the balances are exactly the module account credited with the amount and then the amount sent on to the recipient, so the recipient gains it and no other balance changes, and the token's minted supply grows by it; a refused mint changes nothing |
| RenounceMsgs.RenounceSpec | x/loyalty/keeper/msg_server_renounce_token_admin.go:14-51 | a renounce sets only the renounced flag; its errors are the six the handler returns |
| RenounceMsgs.RenounceRequires | x/loyalty/keeper/msg_server_renounce_token_admin.go:31-40 | a renounce succeeds only for the owner or the authority, only once, and only with seizure off, and the result keeps the token invariant |
| RenounceMsgs.RenounceRefusals | x/loyalty/keeper/msg_server_renounce_token_admin.go:31-40 | a stranger gets ErrUnauthorized, an already renounced token ErrAdminRenounced, a token with seizure on ErrAdminRenouncePolicy |
| RenounceMsgs.RenounceIsFinal | x/loyalty/keeper/msg_server_renounce_token_admin.go:35-37 | after a successful renounce, every later renounce of that token fails |
| RenounceMsgs.RenounceTokenAdmin | x/loyalty/keeper/msg_server_renounce_token_admin.go:14-51 | on success exactly that token's record is replaced by the renounced one; on error nothing changes |
| RoutingMsgs.RoutingSpec | x/loyalty/keeper/msg_server_set_merchant_incentive_routing.go:14-53 | a successful call changes only the token's two routing shares; its errors are the five the handler returns |
| RoutingMsgs.RoutingStoresValidSplit | x/loyalty/keeper/msg_server_set_merchant_incentive_routing.go:33-43 | a split is stored only by the owner or the authority, and only when it sums to 10000 bps, keeping the token invariant |
| RoutingMsgs.RoutingAcceptsExactlyFullSplits | x/loyalty/keeper/msg_server_set_merchant_incentive_routing.go:38-40 | for an authorised signer the call succeeds exactly for a full split, and is ErrMerchantRouting otherwise |
| RoutingMsgs.SetMerchantIncentiveRouting | x/loyalty/keeper/msg_server_set_merchant_incentive_routing.go:14-53 | on success that token's record carries the new split and the response echoes it; on error nothing changes |
| RecoveryQueue.UnlockTime | x/loyalty/keeper/msg_server_queue_recovery_transfer.go:73-79 | the two overflow guards together accept exactly when now + hours·3600 fits in uint64, and the unlock time is that sum |
| RecoveryQueue.MayRecover | x/loyalty/keeper/msg_server_queue_recovery_transfer.go:54-55 | the token's recovery group policy or the authority may queue a recovery |
| RecoveryQueue.QueueSpec | x/loyalty/keeper/msg_server_queue_recovery_transfer.go:18-99 | a queued operation is Queued under the given id, with the message's transfer, created now and unlocking timelock hours later |
| RecoveryQueue.CheckQueueMsg | x/loyalty/keeper/msg_server_queue_recovery_transfer.go:19-36 | passes exactly for a decodable signer, a positive amount, decodable and distinct (after trimming) from and to addresses, and a valid factory denom |
| RecoveryQueue.CheckRecoveryToken | x/loyalty/keeper/msg_server_queue_recovery_transfer.go:45-65 | passes exactly for seizure on, a registered recovery policy, the policy or the authority as signer, and a timelock at the network minimum |
| RecoveryQueue.QueuedOperationValid | x/loyalty/keeper/msg_server_queue_recovery_transfer.go:86-99 | a queued operation satisfies the operation invariant |
| RecoveryQueue.QueueRequiresAll | x/loyalty/keeper/msg_server_queue_recovery_transfer.go:19-65 | a queue succeeds only with every message and token check passing |
| RecoveryQueue.QueueRejectsBadRequest | x/loyalty/keeper/msg_server_queue_recovery_transfer.go:22-33 | a zero amount, or equal from and to addresses, is ErrRecoveryBadRequest |
| RecoveryQueue.QueueNeverWraps | x/loyalty/keeper/msg_server_queue_recovery_transfer.go:73-79 | where the unlock time would pass uint64 the queue fails instead of wrapping |
| RecoveryQueue.QueueOneHourScenario | x/loyalty/keeper/msg_server_queue_recovery_transfer.go:76-93 | queued at 1700000000 with a one-hour timelock, the operation unlocks at 1700003600 |
| RecoveryQueue.QueueRecoveryTransfer | x/loyalty/keeper/msg_server_queue_recovery_transfer.go:18-121 | on success the operation is stored under the sequence's next id, the sequence advances, and a queued event is emitted; a fresh id never overwrites; on error nothing changes |
| RecoveryQueue.StoreQueued | x/loyalty/keeper/msg_server_queue_recovery_transfer.go:81-114 | advances the sequence, stores the operation and appends its event, keeping validity |
| RecoveryCancel.AcceptableReason | x/loyalty/keeper/msg_server_cancel_recovery_transfer.go:21-27 | a cancel reason is acceptable when, trimmed, it is non-empty and at most 512 UTF-8 bytes |
| RecoveryCancel.CancelSpec | x/loyalty/keeper/msg_server_cancel_recovery_transfer.go:17-80 | a cancelled operation is the stored one with status Cancelled, cancelled now, with the trimmed reason |
| RecoveryCancel.CancelKeepsInvariant | x/loyalty/keeper/msg_server_cancel_recovery_transfer.go:58-60 | cancelling a queued operation with an acceptable reason keeps the operation invariant |
| RecoveryCancel.StoredReasonTrimmed | x/loyalty/keeper/msg_server_cancel_recovery_transfer.go:21-60 | a stored cancel reason is its own trimming |
| RecoveryCancel.CancelRequires | x/loyalty/keeper/msg_server_cancel_recovery_transfer.go:21-50 | a cancel succeeds only with a non-empty reason of at most 512 bytes, a queued operation, and the recovery policy or the authority as signer |
| RecoveryCancel.CancelRefusals | x/loyalty/keeper/msg_server_cancel_recovery_transfer.go:21-38 | a bad reason is ErrRecoveryBadRequest before any lookup; a missing id is ErrKeyNotFound; an operation not queued is ErrRecoveryNotQueued |
| RecoveryCancel.CancelRecoveryTransfer | x/loyalty/keeper/msg_server_cancel_recovery_transfer.go:17-80 | on success exactly that operation is replaced by the cancelled one and an event is emitted; on error nothing changes |
| RecoveryCancel.StoreCancelled | x/loyalty/keeper/msg_server_cancel_recovery_transfer.go:61-73 | stores the cancelled operation and appends its event, keeping validity |
| RecoveryExecute.ExecuteSpec | x/loyalty/keeper/msg_server_execute_recovery_transfer.go:17-62 | an executed operation is the stored one with status Executed, executed now, with no reason |
| RecoveryExecute.ExecuteTimelockInclusive | x/loyalty/keeper/msg_server_execute_recovery_transfer.go:37-39 | a queued operation is too early exactly before its unlock time; at the unlock second it may execute |
| RecoveryExecute.ExecuteRequires | x/loyalty/keeper/msg_server_execute_recovery_transfer.go:34-50 | an execution needs the token to still have seizure on and the timelock elapsed, and keeps the table valid |
| RecoveryExecute.ExecuteOpValid | x/loyalty/keeper/msg_server_execute_recovery_transfer.go:72-75 | the executed operation keeps its id and the operation invariant |
| RecoveryExecute.ExecuteIgnoresCaller | x/loyalty/keeper/msg_server_execute_recovery_transfer.go:18-20 | execution does not depend on who asks, once the signer decodes |
| RecoveryExecute.NotQueuedRefused | x/loyalty/keeper/msg_server_execute_recovery_transfer.go:34-36 | an operation that is no longer queued is refused with ErrRecoveryNotQueued by both execute and cancel |
| RecoveryExecute.EndStatesAreTerminal | x/loyalty/keeper/msg_server_execute_recovery_transfer.go:34-36 | after an execute or a cancel, every later execute or cancel of that operation is refused |
| RecoveryExecute.RecoveryMovesFunds | x/loyalty/keeper/msg_server_execute_recovery_transfer.go:65-70 | the two legs move the amount from the source to the destination and leave the module account as it was |
| RecoveryExecute.RecoveryLegs | x/loyalty/keeper/msg_server_execute_recovery_transfer.go:65-70 | the legs fail exactly when the source holds less than the amount |
| RecoveryExecute.CollectAndDeliver | x/loyalty/keeper/msg_server_execute_recovery_transfer.go:63-70 | the balances after the two bank calls are RecoveryLegs' |
| RecoveryExecute.StoreExecuted | x/loyalty/keeper/msg_server_execute_recovery_transfer.go:75-89 | stores the executed operation and appends its event, keeping validity |
| RecoveryExecute.ExecuteRecoveryTransfer | x/loyalty/keeper/msg_server_execute_recovery_transfer.go:17-92 | on success the funds move as RecoveryLegs says and the operation is stored executed with an event; a refusal, including a source short of funds, changes nothing |
| DailyRollupClock.LocalToday | x/loyalty/keeper/daily_rollup.go:26-30 | the block's local date in the zone, formatted; an unloadable zone is ErrInvalidRequest |
| DailyRollupClock.RollupDate | x/loyalty/keeper/msg_server_record_reward_accrual.go:38-47 | an explicit date is kept if it parses and refused with ErrInvalidRequest otherwise; an empty one is today's local date |
| DailyRollupClock.RollupSpec | x/loyalty/keeper/daily_rollup.go:20-54 | fails exactly for an unloadable zone; emits a rollup event for today exactly when the stored date is not today |
| DailyRollupClock.RollupOncePerLocalDay | x/loyalty/keeper/daily_rollup.go:32-35 | two blocks on the same local day roll up at most once |
| DailyRollupClock.RollupOnNewLocalDay | x/loyalty/keeper/daily_rollup.go:32-42 | a block on a new local date always rolls up and moves the watermark to that date |
| DailyRollupClock.RunDailyRollup | x/loyalty/keeper/daily_rollup.go:20-54 | the stored date and the events change exactly as RollupSpec says |
| RollupStatus.NextRollupDate | x/loyalty/keeper/query_daily_rollup_status.go:41-45 | a date that does not parse has no next rollup date |
| RollupStatus.DailyRollupStatus | x/loyalty/keeper/query_daily_rollup_status.go:16-54 | fails with Internal exactly for an unloadable zone; otherwise reports the zone, today's date, the stored date ("" when none) and whether it is today |
| RollupStatus.NextRollupIsNextDay | x/loyalty/keeper/query_daily_rollup_status.go:42-44 | the next rollup date is the calendar day after today |
| RollupStatus.StatusAgreesWithRollup | x/loyalty/keeper/query_daily_rollup_status.go:31-36 | the status says rolled today exactly when the rollup would do nothing |
| RollupStatus.NextRollupScenario | x/loyalty/keeper/query_daily_rollup_status.go:42-44 | 2026-02-26 is followed by 2026-02-27 |
| MerchantAllocationMsgs.StakersShareAsWritten | x/loyalty/keeper/msg_server_record_merchant_allocation.go:62 | the share as written is at most (2^64-1)/10000, whatever the bucket |
| MerchantAllocationMsgs.StakersShare | x/loyalty/keeper/msg_server_record_merchant_allocation.go:62 | the intended share is the floor of bucket·bps/10000 and never exceeds the bucket |
| MerchantAllocationMsgs.StakersShareAgreesWithoutOverflow | x/loyalty/keeper/msg_server_record_merchant_allocation.go:62 | where bucket·bps fits in uint64 the written and intended shares agree |
| MerchantAllocationMsgs.StakersShareWraps | x/loyalty/keeper/msg_server_record_merchant_allocation.go:62-63 | a 2^62 bucket at 5000 bps gives the stakers 0 as written instead of 2^61 |
| MerchantAllocationMsgs.AllocationSpec | x/loyalty/keeper/msg_server_record_merchant_allocation.go:17-100 | the record of a known token is keyed date and denom joined by a vertical bar, and the updated flag says exactly whether that key was already stored |
| MerchantAllocationMsgs.AllocationSplitsBucket | x/loyalty/keeper/msg_server_record_merchant_allocation.go:57-63 | the stakers get floor(bucket·bps/10000), the treasury the rest, and the record keeps the allocation invariant |
| MerchantAllocationMsgs.AllocationRequires | x/loyalty/keeper/msg_server_record_merchant_allocation.go:18-48 | only the authority records, with a valid denom, a positive score and bucket, and a date that parses |
| MerchantAllocationMsgs.AllocationRefusals | x/loyalty/keeper/msg_server_record_merchant_allocation.go:21-56 | a stranger gets ErrInvalidSigner; a zero score or bucket, or an explicit date that does not parse, ErrInvalidRequest; once those pass and the date resolves, an unknown token ErrTokenNotFound |
| MerchantAllocationMsgs.AllocationSameDayReplaces | x/loyalty/keeper/msg_server_record_merchant_allocation.go:64-86 | a second allocation for the same day and denom lands on the same key and reports that it replaced one |
| MerchantAllocationMsgs.AllocationScenario | x/loyalty/keeper/msg_server_record_merchant_allocation.go:57-98 | 1000 at 5000 bps splits 500/500 as a new record; 2000 at 7000 bps the same day splits 1400/600 and replaces it |
| MerchantAllocationMsgs.SplitAt | x/loyalty/keeper/msg_server_record_merchant_allocation.go:62-63 | a bucket at a non-legacy stakers share splits by that share |
| MerchantAllocationMsgs.RecordMerchantAllocation | x/loyalty/keeper/msg_server_record_merchant_allocation.go:17-100 | on success exactly the record's key is written and the response reports the split and the updated flag; on error nothing changes |
| RewardAccrualMsgs.AccrueAsWritten | x/loyalty/keeper/msg_server_record_reward_accrual.go:65 | the credit as written is the sum when it fits and otherwise smaller than the stored amount |
| RewardAccrualMsgs.AccrueWrapsToZero | x/loyalty/keeper/msg_server_record_reward_accrual.go:65 | a balance of 2^64-1 credited 1 becomes 0 as written |
| RewardAccrualMsgs.AccrualBase | x/loyalty/keeper/msg_server_record_reward_accrual.go:49-63 | the stored record under the address and denom key, or a fresh record with amount 0 when none is stored |
| RewardAccrualMsgs.AccrualSpec | x/loyalty/keeper/msg_server_record_reward_accrual.go:16-79 | a recorded amount is at least the positive credit, on a date that resolves; its errors are among the five error kinds the handler returns, ErrInvalidRequest also covering the overflow refusal the model adds |
| RewardAccrualMsgs.AccrualAccumulates | x/loyalty/keeper/msg_server_record_reward_accrual.go:49-66 | a credit adds to the stored amount (or starts from zero), keeps the record's creator, address and denom, and moves its date |
| RewardAccrualMsgs.AccrualRefusals | x/loyalty/keeper/msg_server_record_reward_accrual.go:26-31 | a zero amount is refused before the signer check; a stranger gets ErrInvalidSigner |
| RewardAccrualMsgs.AccrualNeverWraps | x/loyalty/keeper/msg_server_record_reward_accrual.go:65 | where the credit would pass uint64 the record fails instead of wrapping |
| RewardAccrualMsgs.AccrualScenario | x/loyalty/keeper/msg_server_record_reward_accrual.go:49-66 | 100 and then 25 for the same account and denom give one record of 125 |
| RewardAccrualMsgs.RecordRewardAccrual | x/loyalty/keeper/msg_server_record_reward_accrual.go:16-79 | on success exactly the address and denom joined by a vertical bar record is written and the response reports the credit and the total; on error nothing changes |
| ClaimRewardMsgs.ClaimSpec | x/loyalty/keeper/msg_server_claim_reward.go:17-58 | a claim pays the whole stored amount of the signer's own address and denom joined by a vertical bar record, which the pool covers |
| ClaimRewardMsgs.ClaimRefusals | x/loyalty/keeper/msg_server_claim_reward.go:26-53 | a missing record is ErrAccrualNotFound; a pool short of the amount is ErrRewardPoolInsufficient |
| ClaimRewardMsgs.ClaimIsOnce | x/loyalty/keeper/msg_server_claim_reward.go:59-61 | once the record is removed a second claim is ErrAccrualNotFound |
| ClaimRewardMsgs.ClaimPays | x/loyalty/keeper/msg_server_claim_reward.go:55-58 | the claimant gains the amount and the pool loses it |
| ClaimRewardMsgs.RecordThenClaim | x/loyalty/keeper/msg_server_claim_reward.go:17-68 | a recorded reward can be claimed back in full right after it is recorded, when the pool covers it |
| ClaimRewardMsgs.ClaimReward | x/loyalty/keeper/msg_server_claim_reward.go:17-68 | on success the amount moves from the module account to the claimant and the record is removed; on error nothing changes |
| RewardAccrualCrud.CheckAccrualMsg | x/loyalty/keeper/msg_server_rewardaccrual.go:16-58 | passes exactly for the authority as signer, a decodable account, a valid denom, the key address and denom joined by a vertical bar, and a positive amount |
| RewardAccrualCrud.CreateAccrualSpec | x/loyalty/keeper/msg_server_rewardaccrual.go:16-58 | creates exactly when the checks pass and the key is new, with the message's fields |
| RewardAccrualCrud.UpdateAccrualSpec | x/loyalty/keeper/msg_server_rewardaccrual.go:60-104 | updates exactly when the checks pass and the key is stored |
| RewardAccrualCrud.DeleteAccrualSpec | x/loyalty/keeper/msg_server_rewardaccrual.go:106-129 | deletes exactly when the authority signs and the key is stored |
| RewardAccrualCrud.UpdateAccrualOverwrites | x/loyalty/keeper/msg_server_rewardaccrual.go:60-104 | an update keeps the original creator and overwrites the amount rather than adding to it |
| RewardAccrualCrud.AccrualCrudAuthorityOnly | x/loyalty/keeper/msg_server_rewardaccrual.go:16-129 | create, update and delete each refuse a non-authority signer with ErrInvalidSigner |
| RewardAccrualCrud.CreateThenDeleteRestores | x/loyalty/keeper/msg_server_rewardaccrual.go:16-129 | creating a record and deleting its key gives back the original table |
| RewardAccrualCrud.CreateRewardAccrual | x/loyalty/keeper/msg_server_rewardaccrual.go:16-58 | on success the key is added; on error nothing changes |
| RewardAccrualCrud.UpdateRewardAccrual | x/loyalty/keeper/msg_server_rewardaccrual.go:60-104 | on success the key's record is replaced; on error nothing changes |
| RewardAccrualCrud.DeleteRewardAccrual | x/loyalty/keeper/msg_server_rewardaccrual.go:106-129 | on success exactly the key is removed; on error nothing changes |
| AllowlistCrud.CheckAllowlistSigner | x/loyalty/keeper/msg_server_creatorallowlist.go:15-45 | passes exactly for the authority signing about a decodable address |
| AllowlistCrud.CreateAllowlistSpec | x/loyalty/keeper/msg_server_creatorallowlist.go:15-45 | creates exactly when the signer check passes and the address is not listed; a listed address is ErrInvalidRequest |
| AllowlistCrud.UpdateAllowlistSpec | x/loyalty/keeper/msg_server_creatorallowlist.go:47-79 | updates exactly when the signer check passes and the address is listed; otherwise ErrKeyNotFound |
| AllowlistCrud.DeleteAllowlistSpec | x/loyalty/keeper/msg_server_creatorallowlist.go:81-107 | deletes exactly when the signer check passes and the address is listed; otherwise ErrKeyNotFound |
| AllowlistCrud.UpdateAllowlistSetsEnabled | x/loyalty/keeper/msg_server_creatorallowlist.go:47-79 | an update changes only the enabled flag of the stored entry |
| AllowlistCrud.AllowlistCrudAuthorityOnly | x/loyalty/keeper/msg_server_creatorallowlist.go:15-107 | each of the three refuses a non-authority signer with ErrInvalidSigner |
| AllowlistCrud.AllowlistGovernsCreation | x/loyalty/keeper/policy.go:48-70 | in allowlisted mode a listed non-authority may create exactly when the entry is enabled, and may not once it is deleted |
| AllowlistCrud.CreateCreatorAllowlist | x/loyalty/keeper/msg_server_creatorallowlist.go:15-45 | on success the address is added; on error nothing changes |
| AllowlistCrud.UpdateCreatorAllowlist | x/loyalty/keeper/msg_server_creatorallowlist.go:47-79 | on success the address's entry is replaced; on error nothing changes |
| AllowlistCrud.DeleteCreatorAllowlist | x/loyalty/keeper/msg_server_creatorallowlist.go:81-107 | on success exactly the address is removed; on error nothing changes |
| Pagination.ValuesAt | x/loyalty/keeper/query_recoveryoperation_filter.go:33 | the records of a walk, one per key and in its order |
| Pagination.ValuesAtCovers | x/loyalty/keeper/query_recoveryoperation_filter.go:33-53 | a walk over every key once yields exactly the table's records |
| Pagination.KeepMembers | x/loyalty/keeper/query_recoveryoperation_filter.go:34-49 | the filter keeps exactly the elements that match |
| Pagination.KeepAppend | x/loyalty/keeper/query_recoveryoperation_filter.go:34-49 | filtering distributes over concatenation, so it preserves order |
| Pagination.CollectMatching | x/loyalty/keeper/query_recoveryoperation_filter.go:32-53 | the walk loop appends exactly the matching records, in walk order |
| Pagination.RequestedStart | x/loyalty/keeper/query_recoveryoperation_filter.go:55-68 | no pagination starts at 0; a page key must parse as a uint64 and wins over the offset |
| Pagination.Paginate | x/loyalty/keeper/query_recoveryoperation_filter.go:55-97 | fails exactly, with InvalidArgument, on a page key that does not parse |
| Pagination.PaginateSlices | x/loyalty/keeper/query_recoveryoperation_filter.go:55-92 | a page is the slice from the clamped start of at most limit matches (all for limit 0); it has a next key exactly when matches remain, and that key parses to where it ended; the total is reported when asked for or without pagination |
| Pagination.PageOfKept | x/loyalty/keeper/query_recoveryoperation_filter.go:32-84 | a page holds only matches, and without pagination it holds all of them |
| Pagination.NextKeyContinues | x/loyalty/keeper/query_recoveryoperation_filter.go:60-89 | fetching with a page's next key continues exactly where that page ended, without gap or overlap |
| QueryFilters.OpMatches | x/loyalty/keeper/query_recoveryoperation_filter.go:20-48 | an operation matches when every non-empty trimmed filter (status, denom, requester, from, to) equals its field |
| QueryFilters.FilterOpsSpec | x/loyalty/keeper/query_recoveryoperation_filter.go:15-98 | a missing request, an unknown status filter or a bad page key is InvalidArgument |
| QueryFilters.FilterOpsExact | x/loyalty/keeper/query_recoveryoperation_filter.go:20-53 | every operation returned is stored and meets every non-empty trimmed criterion; without pagination every such operation is returned |
| QueryFilters.FilterRecoveryOperations | x/loyalty/keeper/query_recoveryoperation_filter.go:15-98 | the query's loop computes FilterOpsSpec and changes nothing |
| QueryFilters.AllocationMatches | x/loyalty/keeper/query_merchantallocation_filter.go:36-43 | an allocation matches when the non-empty trimmed date and denom filters equal its fields |
| QueryFilters.FilterAllocationsSpec | x/loyalty/keeper/query_merchantallocation_filter.go:17-93 | a missing request, a date filter that does not parse, an invalid denom filter or a bad page key is InvalidArgument |
| QueryFilters.FilterAllocationsExact | x/loyalty/keeper/query_merchantallocation_filter.go:22-48 | every allocation returned is stored and matches the date and denom filters; without pagination every match is returned |
| QueryFilters.FilterMerchantAllocations | x/loyalty/keeper/query_merchantallocation_filter.go:17-93 | the query's loop computes FilterAllocationsSpec and changes nothing |
| QueryFilters.AccrualMatches | x/loyalty/keeper/query_rewardaccrual_filter.go:35-42 | an accrual matches when the non-empty trimmed address and denom filters equal its fields |
| QueryFilters.FilterAccrualsSpec | x/loyalty/keeper/query_rewardaccrual_filter.go:16-92 | a missing request, an undecodable address filter, an invalid denom filter or a bad page key is InvalidArgument |
| QueryFilters.FilterAccrualsExact | x/loyalty/keeper/query_rewardaccrual_filter.go:21-47 | every accrual returned is stored and matches the address and denom filters; without pagination every match is returned |
| QueryFilters.FilterRewardAccruals | x/loyalty/keeper/query_rewardaccrual_filter.go:16-92 | the query's loop computes FilterAccrualsSpec and changes nothing |
| Genesis.DefaultGenesis | x/loyalty/types/genesis.go:6-10 | default params and empty tables, with the operation counter at 0 and no rollup date |
| Genesis.GenesisSpec | x/loyalty/types/genesis.go:14-55 | the only errors are a repeated key or id, an id at or above the counter, or invalid parameters |
| Genesis.CheckDistinct | x/loyalty/types/genesis.go:15-41 | the seen-set loop accepts exactly lists without repeats |
| Genesis.CheckOpIds | x/loyalty/types/genesis.go:42-52 | the operation loop accepts exactly distinct ids all below the counter |
| Genesis.ValidateGenesis | x/loyalty/types/genesis.go:14-55 | the validation loops compute GenesisSpec |
| Genesis.DefaultGenesisValid | x/loyalty/types/genesis.go:6-10 | the default genesis validates wherever the default zone loads |
| Genesis.GenesisRejectsBadOps | x/loyalty/types/genesis.go:44-50 | two operations with one id, or an id at or above the counter, make the genesis invalid |
| Genesis.GenesisCounterAhead | x/loyalty/types/genesis.go:42-52 | in a valid genesis every operation id lies below the counter, so the next id handed out is fresh |
| Genesis.GenesisIgnoresAllocationsAndDate | x/loyalty/types/genesis.go:14-55 | validation reads neither the merchant allocations nor the last rollup date |

## Left out

- Transaction rollback: the SDK discards a failed transaction's writes. The
  model keeps effects made before a later error, such as minted coins or
  the collect leg of a recovery. The handlers' own stated promises hold
  either way.
- `getParams` failing, a store read or write failing, a failing sequence,
  and a group keeper call failing (ErrLogic): store I/O is not modelled.
  Params are a keeper field that is always readable.
- Events are modelled as a log of records. Attribute formatting (`%d` of the
  values) is not modelled.
- Denom metadata registration after a create (denom_metadata.go) is not part
  of this model. It writes bank metadata only.
- The `Walk` order of each collection is a parameter (`walk`) that lists
  every key once. The store's byte ordering is not modelled.
- Time zones and local dates come from the environment (`tzLoadable`,
  `localDate`). The tz database is not modelled.
- `sdk.ValidateDenom`, the address codec, the bond denom, the module address
  and the group policy registry are environment functions. Their own rules
  are not modelled.
- Bank sends are exact debits and credits on a balance map. Blocked-address
  refusals and bank fees are not modelled. A send beyond the balance fails
  with InsufficientFunds.
- Strings.ToLowerAscii: lowers only ASCII letters, whereas strings.ToLower
  folds all of Unicode. The chain-id test needs ASCII only.
- Types.StatusName: the string literals of RecoveryStatusQueued, Executed and
  Cancelled are not part of this model. Statuses are a datatype with
  injective, non-empty, trimmed names.
- Types.MerchantAllocationKey: the definition of merchantAllocationKey is not
  part of this model. It is taken to be `date|denom`, like
  rewardAccrualKey.
- keeper.go declares neither the Merchantallocation map nor the
  LastDailyRollupDate item, though the handlers use both. The model gives the
  keeper both fields.
- `resolveStoredDenom` is defined with three arguments, but the handlers call
  it with one. The handlers use an environment resolver (`resolveDenom`).
  TokenFactoryDenom.ResolveStoredDenom models the three-argument definition.
- MintVerifiedToken does not refuse a token whose admin was renounced. The
  model follows the code.
- SetMerchantIncentiveRouting does not check the renounced flag. The model
  follows the code.
- ExecuteRecoveryTransfer checks only that the signer decodes, not who it
  is. The model follows the code (RecoveryExecute.ExecuteIgnoresCaller).
- Genesis validation checks neither allocations nor the rollup date
  (Genesis.GenesisIgnoresAllocationsAndDate). Its errors are plain
  `fmt.Errorf` values, modelled as InvalidGenesis.
- RollupStatus.DailyRollupStatus: the nil-request InvalidArgument branch is
  not modelled; a status request always exists in the model. The getParams
  and store Internal errors are left out as above.
- Types.OperationInvariant: stores a cancel reason as `Trimmed` (no
  surrounding white space). The TrimSpace form is proved separately by
  RecoveryCancel.StoredReasonTrimmed.
- MintMsgs.MintSpec: uses the exact cap check (refuse exactly when minted
  plus the amount passes the cap) where msg_server_mint_verified_token.go:47
  subtracts on uint64 and wraps once the amount exceeds the cap
  (MintMsgs.CapCheckWrapsAboveCap). The `+=` at line 59 can then wrap as
  well. Go performs such mints and can leave a token above its cap, or with
  a wrapped small total. The model refuses them with ErrCapExceeded, so the
  minted-within-cap part of Types.TokenInvariant holds only for the
  corrected program. Within the cap the two checks agree
  (MintMsgs.CapCheckAgreesWithinCap).
- MintMsgs.MintVerifiedToken: inherits MintSpec's corrected cap check. Its
  `requires k.Valid()` excludes tokens minted above their cap, which the
  handler as written can produce.
- MerchantAllocationMsgs.AllocationSpec: computes the stakers' share on the
  exact product, where msg_server_record_merchant_allocation.go:62
  multiplies on uint64 and wraps once bucket·bps reaches 2^64 (2^62 at 5000
  bps gives Go 0, the model 2^61; MerchantAllocationMsgs.StakersShareWraps).
  Where the product fits the two agree
  (MerchantAllocationMsgs.StakersShareAgreesWithoutOverflow).
- MerchantAllocationMsgs.RecordMerchantAllocation: stores AllocationSpec's
  record, so for buckets whose product with the share passes 2^64 it stores
  the intended split, not the one Go computes.
- RewardAccrualMsgs.AccrualSpec: refuses with ErrInvalidRequest a credit
  that would take the stored total past 2^64-1. The source has no such error
  path: `+=` at msg_server_record_reward_accrual.go:65 wraps and the record
  is stored (RewardAccrualMsgs.AccrueWrapsToZero). The refusal is one
  reading of the intent, like the overflow guards of the recovery queue
  handler. Below the bound the stored total is exactly the unchecked sum
  (RewardAccrualMsgs.AccrualAccumulates).
- RewardAccrualMsgs.RecordRewardAccrual: stores AccrualSpec's result, so it
  refuses where Go stores a wrapped total.
- Types.AllocationInvariant: states the split linearly (the stakers' share
  and the treasury share sum to the bucket). The floor-division formula is
  proved per record by MerchantAllocationMsgs.AllocationSplitsBucket.

## Findings

| source | as written | input that shows it | evidently intended | confidence | as-written member | corrected member |
|---|---|---|---|---|---|---|
| x/loyalty/keeper/msg_server_mint_verified_token.go:47 | `token.MintedSupply > token.MaxSupply-msg.Amount` on uint64 wraps when the amount exceeds the cap | cap 10, minted 0, mint 100: `10-100` wraps to about 2^64, so the check passes and minted becomes 100 > cap | refuse exactly when minted + amount > cap | not executed | MintMsgs.CapCheckWrapsAboveCap | MintMsgs.MintRefusedExactlyOverCap |
| x/loyalty/keeper/msg_server_record_merchant_allocation.go:62 | `msg.BucketCAmount * token.MerchantIncentiveStakersBps` on uint64 wraps for buckets above (2^64-1)/10000 | bucket 2^62 at 5000 bps: the product is 2^64·1250, which wraps to 0, so the stakers get 0 and the treasury the whole bucket | stakers get floor(bucket·bps/10000) computed exactly | not executed | MerchantAllocationMsgs.StakersShareWraps | MerchantAllocationMsgs.AllocationSplitsBucket |
| x/loyalty/keeper/msg_server_record_reward_accrual.go:65 | `record.Amount += msg.Amount` on uint64 wraps | stored 2^64-1, credit 1: the stored total becomes 0 | refuse a credit that would pass uint64 | not executed | RewardAccrualMsgs.AccrueWrapsToZero | RewardAccrualMsgs.AccrualNeverWraps |
