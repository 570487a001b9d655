# art-spot contracts in Dafny

This project models the core of the art-spot NEAR contracts and their shared SDK. It covers three packages.

- **spot-token** is a NEP-141 fungible token. The model covers the value ledger, the minters list and the settlement of a `ft_transfer_call`.
- **art-spot** is the platform contract. The model covers:
  - the owner and allowlist gates;
  - the user registry with NEP-145 storage management, where users pay rent per stored byte;
  - profile and role updates;
  - the deposit check of `create_contract`;
  - the staged code upgrade;
  - the storage tracker;
  - the crate's own `Id` in `id.rs`, which the crate declares but does not use: the contract imports the SDK's `Id`;
  - that `Id`'s unpadded RFC 4648 base32 codec.
- **as-sdk** is the shared SDK. The model covers:
  - the storage-tracking globals of `ctx.rs`;
  - the five-kind `Id`, which the art-spot contract uses for owners, allowlist entries, users and callers;
  - `YoctoNear` amounts;
  - `Version`.

Both `ctx.rs` files hold the same storage-tracking code. `Ctx` models it once and cites the art-spot copy.

A contract panic aborts the receipt and reverts every write it made. So a failing method here returns `Fail`/`Err` carrying the panic message and leaves its object as it found it.

Host inputs are parameters:
- the predecessor, as an account name (art-spot reads it as an `Id` through `Id::new`, which may abort);
- the contract's own account and whether contract state already exists;
- the attached deposit;
- the prepaid gas;
- the block timestamp;
- the storage byte cost;
- the host's storage-usage counter, read when a span starts and when it stops;
- the result of a cross-contract call.

State that the source changes in place is held in classes:
- `SpotToken.Token`;
- `ArtSpotContract.ArtSpot`;
- `StorageTracking.StorageTracker`;
- `Ctx.StorageContext`.

Each method of these classes is proved against pure specification functions, such as `SpotToken.Settle`, `ArtSpotContract.ApplyUsage` and `Base32.EncodeSpec`. The properties the source promises are proved about those functions.

Loops in the source are methods with loop invariants:
- the base32 encoder and decoder and their inner copy loops;
- the id character scan;
- `Version`'s byte search.

Integers are unbounded in Dafny. u128 balances are bounded explicitly:
- saturating operations clamp at `2^128 - 1`;
- checked operations fail beyond it.

Byte and gas counters (u64 in the source) are `nat`.

## Model

| member | source | states |
|---|---|---|
| SpotToken.UnusedAmount | packages/spot-token/src/internal.rs:137-146 | the unused amount is the receiver's parsed answer capped by the amount, or the whole amount when the call failed or its answer does not parse; never more than the amount |
| SpotToken.Position | packages/spot-token/src/lib.rs:183-185 | the first index holding the account, None exactly when it is absent |
| SpotToken.SwapRemove | packages/spot-token/src/lib.rs:186 | one element shorter, the last element moved into the gap, all other positions kept, the multiset loses exactly the removed element |
| SpotToken.Settle | packages/spot-token/src/internal.rs:128-194 | settling a transfer-call keeps the total supply equal to the sum of balances; used ≤ amount; burned ≤ unused; the supply drops by exactly the burned amount |
| SpotToken.SettleNothingUnused | packages/spot-token/src/internal.rs:148-150 | with nothing unused or an empty receiver nothing moves and the whole amount is used |
| SpotToken.SettleRefund | packages/spot-token/src/internal.rs:151-175 | with the sender still registered, `min(receiver balance, unused)` moves from receiver to sender, no other balance or the supply changes, used = amount − refund |
| SpotToken.SettleBurn | packages/spot-token/src/internal.rs:176-190 | with the sender deregistered, the receiver loses the refund, nobody is credited, the supply drops by it, it is reported as burned and the whole amount as used |
| SpotToken.SumRemove | packages/spot-token/src/internal.rs:73-97 | the sum of balances is any one balance plus the sum of the others (the basis of supply conservation) |
| SpotToken.SumUpdate | packages/spot-token/src/internal.rs:73-97 | writing one balance changes the sum of balances by the difference |
| SpotToken.Init | packages/spot-token/src/lib.rs:83-125 | creates a token exactly when the contract calls `new` on itself and no state exists, the owner holding the whole supply as the only minter; otherwise aborts with `NearHost.AssertInit`'s message |
| SpotToken.Token.constructor | packages/spot-token/src/lib.rs:85-125 | once `NearHost.AssertInit` passes: the owner is registered with the whole initial supply, is the only minter, a mint event is logged, supply is conserved |
| SpotToken.Token.AssertOwner | packages/spot-token/src/internal.rs:22-27 | passes exactly for the owner |
| SpotToken.Token.AssertMinter | packages/spot-token/src/internal.rs:29-31 | passes exactly for an account in the minters list |
| SpotToken.Token.InternalUnwrapBalanceOf | packages/spot-token/src/internal.rs:64-71 | the stored balance, or an abort exactly for an unregistered account |
| SpotToken.Token.InternalDeposit | packages/spot-token/src/internal.rs:73-84 | succeeds iff the account is registered and neither the balance nor the supply overflows; then both grow by the amount; otherwise nothing changes |
| SpotToken.Token.MintInto | packages/spot-token/src/internal.rs:33-44 | the same contract as the deposit |
| SpotToken.Token.InternalWithdraw | packages/spot-token/src/internal.rs:86-97 | succeeds iff registered with enough balance, aborting "doesn't have enough balance" otherwise; balance and supply drop by the amount; conservation keeps the supply subtraction from failing |
| SpotToken.Token.InternalBurn | packages/spot-token/src/internal.rs:46-57 | the same contract as the withdrawal |
| SpotToken.Token.InternalTransfer | packages/spot-token/src/internal.rs:99-117 | refuses self-transfer and zero amounts with their messages; succeeds iff both are registered and the sender has enough; moves exactly the amount, keeps the supply, logs one transfer; a failure reverts everything |
| SpotToken.Token.InternalRegisterAccount | packages/spot-token/src/internal.rs:119-123 | adds a zero balance exactly for a new account, aborting "already registered" otherwise |
| SpotToken.Token.InternalFtResolveTransfer | packages/spot-token/src/internal.rs:128-194 | the new ledger, supply, events and `(used, burned)` are those of `Settle`; it never aborts on a conserved ledger |
| SpotToken.Token.Mint | packages/spot-token/src/lib.rs:153-164 | succeeds iff one yocto is attached, the caller is a minter and the deposit fits; credits balance and supply and logs a mint; otherwise nothing changes |
| SpotToken.Token.Burn | packages/spot-token/src/lib.rs:139-151 | succeeds iff one yocto is attached, the caller is the owner and the balance suffices; debits balance and supply and logs a burn |
| SpotToken.Token.AddMinter | packages/spot-token/src/lib.rs:166-176 | the owner with one yocto appends an absent account; a present one aborts "already in the list" |
| SpotToken.Token.RemoveMinter | packages/spot-token/src/lib.rs:178-189 | the owner with one yocto swap-removes the first occurrence, so the multiset loses exactly that account; an absent one aborts "not a minter" |
| SpotToken.Token.FtTransfer | packages/spot-token/src/lib.rs:216-222 | succeeds iff one yocto is attached and the internal transfer from the caller succeeds; then exactly the amount moves, the supply is unchanged and one transfer event is logged; a failure changes nothing |
| SpotToken.Token.FtTransferCall | packages/spot-token/src/lib.rs:224-250 | aborts "More gas is required" when prepaid gas ≤ 30 TGas before any balance changes; otherwise the transfer with its transfer event, and the receiver call gets prepaid − 30 TGas |
| SpotToken.Token.FtTotalSupply | packages/spot-token/src/lib.rs:252-254 | the supply is the sum of all balances |
| SpotToken.Token.FtBalanceOf | packages/spot-token/src/lib.rs:256-258 | 0 for an unregistered account, the stored balance otherwise |
| SpotToken.Token.FtResolveTransfer | packages/spot-token/src/lib.rs:268-289 | private: any caller but the contract's own account is refused "Method ft_resolve_transfer is private" with nothing changed; otherwise returns the used amount of `Settle` and logs a burn exactly when something was burned |
| NearHost.AssertOneYocto | packages/spot-token/src/lib.rs:141 | passes exactly when one yoctoNEAR is attached |
| NearHost.AssertPrivate | packages/spot-token/src/lib.rs:270 | a private method passes exactly when the caller is the contract's own account; otherwise it aborts "Method <name> is private" |
| NearHost.AssertInit | packages/spot-token/src/lib.rs:83-90 | `new` passes exactly when the contract calls it on itself and no state exists; otherwise it aborts "Method new is private" or "Already initialized" |
| Ctx.NewHistory | packages/art-spot/src/ctx.rs:17-24 | stores its two counters |
| Ctx.DefaultHistory | packages/art-spot/src/ctx.rs:26-33 | both counters zero |
| Ctx.Record | packages/art-spot/src/ctx.rs:54-60 | the net change of the counters is the change in usage; growth only adds to the added counter, shrink only to the released one |
| Ctx.RecordWriteThenDelete | packages/art-spot/src/ctx.rs:54-60 | writing x bytes counts x added; deleting them later counts x released |
| Ctx.StorageContext.constructor | packages/art-spot/src/ctx.rs:8-9 | tracking off, recorded usage 0 |
| Ctx.StorageContext.IsStorageTracking | packages/art-spot/src/ctx.rs:35-37 | the tracking flag |
| Ctx.StorageContext.StartStorageTracking | packages/art-spot/src/ctx.rs:39-46 | refused while tracking with its message and nothing changed; otherwise tracking on and the current usage recorded |
| Ctx.StorageContext.StopStorageTracking | packages/art-spot/src/ctx.rs:48-65 | tracking off without checking it was on, recorded usage reset to 0, the span since the recorded usage folded into the previous history (missing counts as zeros) |
| StorageTracking.StorageTracker.constructor | packages/art-spot/src/storage_tracker.rs:20-26 | zero counters, no open span, so empty |
| StorageTracking.StorageTracker.IsEmpty | packages/art-spot/src/storage_tracker.rs:77-79 | empty iff both counters are zero and no span is open |
| StorageTracking.StorageTracker.Drop | packages/art-spot/src/storage_tracker.rs:13-17 | dropping passes exactly for an empty tracker, otherwise aborts "Bug, non-tracked storage change" |
| StorageTracking.StorageTracker.Start | packages/art-spot/src/storage_tracker.rs:29-36 | opens a span at the current usage, refused while one is open |
| StorageTracking.StorageTracker.Stop | packages/art-spot/src/storage_tracker.rs:39-52 | refused without an open span; otherwise closes it and folds its growth or shrink into the counters as `Record` does |
| StorageTracking.StorageTracker.Consume | packages/art-spot/src/storage_tracker.rs:55-64 | as written: refused while the other tracks; adds the other's added bytes but overwrites the released bytes with the other's; empties the other |
| StorageTracking.StorageTracker.ConsumeMerging | packages/art-spot/src/storage_tracker.rs:55-64 | as intended: both counters are moved over, their sums over the two trackers are unchanged |
| StorageTracking.StorageTracker.Clone | packages/art-spot/src/storage_tracker.rs:5 | a new tracker in the same state, an open span included |
| StorageTracking.StorageTracker.Clear | packages/art-spot/src/storage_tracker.rs:66-74 | refused while a span is open; otherwise leaves the tracker empty |
| IdSyntax.StripSuffix | packages/art-spot/src/id.rs:135-136 | present exactly when the text ends with the suffix, and then the text is the result followed by the suffix |
| IdSyntax.WellFormedNotArtSpotSuffixed | packages/art-spot/src/id.rs:88-90 | a valid name never ends with `art-spot.near` |
| IdSyntax.IdError.Message | packages/art-spot/src/id.rs:61-69 | the display text of an id error is never empty |
| IdSyntax.Validation | packages/art-spot/src/id.rs:96-126 | too short exactly below 2 characters, too long exactly above 64 |
| IdSyntax.ScanAccepts | packages/art-spot/src/id.rs:108-125 | the separator-flag scan accepts exactly the strings of id characters without a doubled separator or one at either end |
| IdSyntax.ScanReportsInputChar | packages/art-spot/src/id.rs:108-125 | a reported invalid character occurs in the input, or is the `-` reported for a trailing separator |
| IdSyntax.ValidationOk | packages/art-spot/src/id.rs:96-126 | validation succeeds exactly on well-formed names |
| IdSyntax.DotNeverValid | packages/art-spot/src/id.rs:96-126 | a name with a `.` never validates |
| IdSyntax.Validate | packages/as-sdk/src/id/mod.rs:60-90 | the scan with its length checks computes `Validation`, Ok exactly on well-formed names |
| IdSyntax.IdIsValid | packages/art-spot/src/id.rs:128-130 | true exactly for well-formed names |
| IdSyntax.IsValidAccountName | packages/art-spot/src/id.rs:16-53 | the free scan is true exactly for well-formed names |
| IdArtSpot.ArtSpotSuffixEndsInNear | packages/art-spot/src/id.rs:88-94 | a name ending in `art-spot.near` ends in `near` |
| IdArtSpot.ArtSpotOrNearId | packages/art-spot/src/id.rs:88-94 | the two recognisers never both hold; together they hold exactly for names ending in `near` |
| IdArtSpot.Classify | packages/art-spot/src/id.rs:132-150 | an art-spot name is stored without its suffix; any other name whole |
| IdArtSpot.New | packages/art-spot/src/id.rs:132-150 | succeeds iff the stored text is well formed; an art-spot name becomes kind ArtSpot with the suffix stripped; another is Near iff it ends in `near` or has 64 characters; an abort carries the validation message |
| IdArtSpot.NewDottedArtSpotAborts | packages/art-spot/src/id.rs:132-150 | every `x.art-spot.near` aborts |
| IdArtSpot.NewDottedAborts | packages/art-spot/src/id.rs:132-150 | every other dotted name, such as `alice.near`, aborts |
| IdArtSpot.NewReparse | packages/art-spot/src/id.rs:132-150 | the stored text reads back through `new` to the same text |
| IdArtSpot.ReparseMayChangeKind | packages/art-spot/src/id.rs:132-150 | but not always to the same kind (`xnearart-spot.near`) |
| IdArtSpot.Name | packages/art-spot/src/id.rs:156-170 | an art-spot id is its own name; a 64-character Near id has none; another Near id is named by its text without the final `near` |
| IdArtSpot.NameMissingOnlyForLongNearIds | packages/art-spot/src/id.rs:156-170 | for ids from `new` the name is missing exactly for 64-character Near ids |
| IdArtSpot.ToAccountId | packages/art-spot/src/id.rs:172-177 | an art-spot id gains `.art-spot.near`, a Near id is its text |
| IdArtSpot.AccountIdKind | packages/art-spot/src/id.rs:172-177 | the account id is an art-spot name exactly for art-spot ids |
| IdArtSpot.ArtSpotAccountIdDoesNotReparse | packages/art-spot/src/id.rs:172-177 | `new` aborts on the account id of an art-spot id |
| IdArtSpot.NearAccountIdReparses | packages/art-spot/src/id.rs:172-177 | the account id of a Near id reads back as the same id |
| Ordering.CompareStringsEqual | packages/art-spot/src/id.rs:260-264 | the string order makes only equal strings Equal |
| Ordering.CompareStringsAntisymmetric | packages/art-spot/src/id.rs:260-264 | swapping the strings reverses the answer |
| Ordering.CompareStringsTransitive | packages/art-spot/src/id.rs:260-264 | the string order is transitive |
| IdArtSpot.Cmp | packages/art-spot/src/id.rs:260-270 | Equal iff the texts are equal; swapping the operands reverses the answer |
| IdArtSpot.EqIgnoresKind | packages/art-spot/src/id.rs:260-276 | equality and order ignore the kind |
| IdArtSpot.EqStr | packages/art-spot/src/id.rs:278-306 | aborts exactly for a name that is neither a Near nor an art-spot name; a Near name is equal iff it is the id's text, an art-spot name iff it is the text followed by the art-spot suffix |
| IdArtSpot.EqStrOwnArtSpotAccount | packages/art-spot/src/id.rs:278-306 | an art-spot id never equals its own account id string |
| IdArtSpot.EqStrOwnNearAccount | packages/art-spot/src/id.rs:278-306 | a Near id ending in `near` equals its own account id string |
| IdArtSpot.EqStrOwnLongNearAccountAborts | packages/art-spot/src/id.rs:278-306 | comparing a 64-character Near id without the `near` ending to its account id aborts |
| IdSdk.IdType.AsStr | packages/as-sdk/src/id/mod.rs:30-38 | every kind has a non-empty name |
| IdSdk.AsStrInjective | packages/as-sdk/src/id/mod.rs:30-38 | the five names are distinct |
| IdSdk.ImplicitFormsWellFormed | packages/as-sdk/src/id/mod.rs:180-192 | both implicit forms are well formed and exclusive |
| IdSdk.Classify | packages/as-sdk/src/id/mod.rs:96-115 | only Ethereum ids skip validation; NearImplicit is never chosen |
| IdSdk.New | packages/as-sdk/src/id/mod.rs:96-115 | the result is the text and kind `Classify` chooses, and it succeeds iff that kind is Ethereum or the text is well formed; an abort carries validation's message; a name with the art-spot suffix succeeds iff its stripped text is well formed; a plain name with no NEAR or implicit form becomes ArtSpot; kinds NearImplicit and Other never arise |
| IdSdk.NewReparse | packages/as-sdk/src/id/serializers.rs:34-45 | the text `new` stores reads back through `new` to the same text, so ids survive the Borsh round trip of the contract's maps |
| IdSdk.NewDottedAborts | packages/as-sdk/src/id/mod.rs:96-115 | the Other branch is dead: a dotted name without the art-spot suffix aborts |
| IdSdk.NewNearImplicit | packages/as-sdk/src/id/mod.rs:103-105 | a 64-hex-digit name becomes a Near id |
| IdSdk.Name | packages/as-sdk/src/id/mod.rs:121-139 | the name of each kind: itself, without `near`, none, or before the last `.` |
| IdSdk.BeforeLastDot | packages/as-sdk/src/id/mod.rs:136 | present exactly when there is a `.`; it is everything before the last one |
| IdSdk.NameOfNearId | packages/as-sdk/src/id/mod.rs:121-139 | a Near id `x + near` is named `x` |
| IdSdk.ToAccountId | packages/as-sdk/src/id/mod.rs:141-149 | only an art-spot id changes, gaining `.art-spot.near` |
| Users.RoleFromStr | packages/art-spot/src/user.rs:31-49 | one of six names, or an abort "Invalid role" |
| Users.RoleNameRoundTrip | packages/art-spot/src/user.rs:19-49 | names and roles correspond one to one |
| Users.RoleCode | packages/art-spot/src/user.rs:57-68 | codes are at most 5 |
| Users.RoleFromCode | packages/art-spot/src/user.rs:70-82 | succeeds exactly for codes 0..=5 |
| Users.RoleCodeRoundTrip | packages/art-spot/src/user.rs:57-82 | codes and roles correspond one to one |
| Users.NewUser | packages/art-spot/src/user.rs:105-121 | no balance, no bytes, the Artist role, unverified, both timestamps now |
| Users.AssertStorageCovered | packages/art-spot/src/user.rs:123-130 | passes iff the rent fits the balance or the balance is the largest u128 (the saturated product) |
| Users.NewUserCovered | packages/art-spot/src/user.rs:105-130 | a fresh user is covered |
| Users.CoverageMonotone | packages/art-spot/src/user.rs:123-130 | fewer bytes or more balance stay covered |
| ArtSpotContract.BalanceBounds | packages/art-spot/src/storage.rs:183-192 | the minimum is the rent of 2000 bytes, saturating; no maximum |
| ArtSpotContract.BalanceOf | packages/art-spot/src/storage.rs:73-82 | total is the deposit; available is the deposit less the rent, or 0 when it is not covered |
| ArtSpotContract.ApplyUsage | packages/art-spot/src/storage.rs:49-66 | growth is added and must then be covered; a shrink is subtracted and must not exceed the bytes in use; nothing else of the user changes |
| ArtSpotContract.ApplyUsageGrowThenShrink | packages/art-spot/src/storage.rs:49-66 | writing and then deleting x bytes restores the account |
| ArtSpotContract.SpanBytes | packages/art-spot/src/storage_tracker.rs:39-52 | the measured counters differ by the usage change and one of them is zero |
| ArtSpotContract.NewAccount | packages/art-spot/src/storage.rs:12-36 | succeeds iff the deposit reaches the minimum and the SDK id has a name; registration-only keeps the minimum and refunds the rest; otherwise the deposit is kept whole |
| ArtSpotContract.NewAccountCharged | packages/art-spot/src/storage.rs:12-47 | a stored new account is charged exactly the bytes its insertion took and is covered |
| ArtSpotContract.ApplyProfile | packages/art-spot/src/lib.rs:199-219 | supplied fields replace the old ones; nothing else changes |
| ArtSpotContract.Init | packages/art-spot/src/lib.rs:64-79 | creates a contract exactly when the contract calls `new` on itself and no state exists, with the owner as the only allowlisted account, no users and nothing staged; otherwise aborts with `NearHost.AssertInit`'s message |
| ArtSpotContract.ArtSpot.constructor | packages/art-spot/src/lib.rs:66-79 | once `NearHost.AssertInit` passes: the owner is the only allowlisted account; no users; nothing staged |
| ArtSpotContract.ArtSpot.AssertOwner | packages/art-spot/src/internal.rs:8-13 | a caller `Id::new` refuses aborts with its message; otherwise passes exactly when the caller's id text is the owner's |
| ArtSpotContract.ArtSpot.AssertSelf | packages/art-spot/src/internal.rs:15-20 | passes exactly when caller and contract both read as ids with the same text |
| ArtSpotContract.ArtSpot.AssertAllowlisted | packages/art-spot/src/internal.rs:22-29 | passes exactly when the caller reads as an id occurring in the allowlist; an empty allowlist refuses without reading the caller |
| ArtSpotContract.ArtSpot.InternalGetAccount | packages/art-spot/src/internal.rs:44-46 | the stored user under the id's text, if any |
| ArtSpotContract.ArtSpot.InternalUnwrapAccount | packages/art-spot/src/internal.rs:48-50 | aborts exactly when no user is stored |
| ArtSpotContract.ArtSpot.AssertRole | packages/art-spot/src/internal.rs:31-38 | a caller that is not an id or not registered aborts; a registered one passes iff it holds the role |
| ArtSpotContract.ArtSpot.AssertAdmin | packages/art-spot/src/internal.rs:40-42 | passes iff the caller reads as an id registered with Admin |
| ArtSpotContract.DottedCallerRefused | packages/art-spot/src/ctx.rs:75-77 | a dotted caller without the art-spot suffix, such as `alice.near`, fails the owner and role gates and a non-empty allowlist |
| ArtSpotContract.ArtSpot.SetOwner | packages/art-spot/src/lib.rs:85-88 | owner only; replaces the owner |
| ArtSpotContract.ArtSpot.AddToAllowlist | packages/art-spot/src/lib.rs:94-97 | owner only; appends without a duplicate check |
| ArtSpotContract.ArtSpot.CreateContractCheck | packages/art-spot/src/lib.rs:141-165 | passes iff the caller is allowlisted, the sub-account is valid and the deposit reaches the code's rent, saturating; each refusal has its own message; the short-deposit message shows the minimum |
| ArtSpotContract.ArtSpot.GrantRole | packages/art-spot/src/lib.rs:222-234 | a role name must parse; Admin needs an allowlisted caller; Moderator an Admin caller |
| ArtSpotContract.ArtSpot.GrantRoles | packages/art-spot/src/lib.rs:221-237 | all names granted in order, or an abort; the list replaces the roles wholesale |
| ArtSpotContract.ArtSpot.UpdatedUser | packages/art-spot/src/lib.rs:188-237 | the existing user with the profile applied and the roles replaced when supplied; aborts for an unknown user or a refused role |
| ArtSpotContract.ArtSpot.InternalSetAccount | packages/art-spot/src/storage.rs:49-71 | charges the tracker's delta through `ApplyUsage`, clears the tracker and stores the account; reports whether one was stored before; a refusal changes nothing |
| ArtSpotContract.ArtSpot.InternalCreateAccountAsWritten | packages/art-spot/src/storage.rs:38-46 | as written: always fails with nothing changed; wherever the intended creation succeeds it aborts "Bug, non-tracked storage change" |
| ArtSpotContract.EthereumAccountNotCreated | packages/art-spot/src/storage.rs:24 | an implicit Ethereum account reads as an id without a name, so no account is created for it |
| ArtSpotContract.ArtSpot.InternalCreateAccount | packages/art-spot/src/storage.rs:12-47 | as intended: stores the new account charged for the measured bytes and returns the refund; otherwise nothing changes |
| ArtSpotContract.ArtSpot.InternalStorageBalanceOf | packages/art-spot/src/storage.rs:73-82 | the balance of a registered user, None otherwise |
| ArtSpotContract.ArtSpot.InternalStorageWithdraw | packages/art-spot/src/storage.rs:86-109 | an unregistered account aborts; the amount (or all available) must not exceed the available balance, and then exactly that is paid and deducted |
| ArtSpotContract.ArtSpot.InternalDepositStorage | packages/art-spot/src/storage.rs:111-115 | a registered account's balance grows by the amount, saturating; otherwise an unwrap abort |
| ArtSpotContract.ArtSpot.StorageDeposit | packages/art-spot/src/storage.rs:123-150 | the account name is read through the SDK's `Id::new`, whose abort aborts the call; a registered account is refunded on registration-only or credited otherwise; an unregistered one is created as `InternalCreateAccount` intends; the result is its balance |
| ArtSpotContract.ArtSpot.StorageWithdraw | packages/art-spot/src/storage.rs:159-175 | with one yocto, a caller that reads as a registered id and asks for nothing gets its balance; any positive amount aborts; a caller `Id::new` refuses aborts with its message |
| ArtSpotContract.ArtSpot.StorageUnregister | packages/art-spot/src/storage.rs:177-181 | always aborts |
| ArtSpotContract.ArtSpot.UpdateAccountAsWritten | packages/art-spot/src/lib.rs:239-242 | as written: always fails with nothing changed; wherever the intended update succeeds it aborts "Bug, non-tracked storage change" |
| ArtSpotContract.ArtSpot.UpdateAccount | packages/art-spot/src/lib.rs:188-243 | as intended: stores the updated user charged for the measured bytes; an unknown user, a refused role or growth the balance does not cover aborts with nothing changed |
| ArtSpotContract.ArtSpot.StagingDuration | packages/art-spot/src/update.rs:11-13 | the configured duration |
| ArtSpotContract.ArtSpot.Stage | packages/art-spot/src/update.rs:15-24 | owner only, and the timestamp must lie beyond now plus the duration; then the code and timestamp are stored |
| ArtSpotContract.ArtSpot.Deploy | packages/art-spot/src/update.rs:27-51 | as written: deploys and removes the staged code only while now ≤ the staging timestamp; after it, aborts "too early" |
| ArtSpotContract.ArtSpot.DeployAfterStaging | packages/art-spot/src/update.rs:27-51 | as intended: deploys once the staging timestamp is reached |
| ArtSpotContract.ArtSpot.Update | packages/art-spot/src/update.rs:56-72 | owner only, and the code must be the call's input |
| Base32.AlphabetShape | packages/art-spot/src/base32.rs:4 | the alphabet is A..Z then 2..7 |
| Base32.InverseShape | packages/art-spot/src/base32.rs:7-12 | the inverse table maps A..Z to 0..25, 2..7 to 26..31, all else to -1 |
| Base32.SymbolRoundTrip | packages/art-spot/src/base32.rs:4-12 | the table reads every alphabet character back as its value |
| Base32.SymbolAccepts | packages/art-spot/src/base32.rs:76-79 | the lookup with 8-bit wrap-around accepts exactly the alphabet |
| Base32.IndexIsValue | packages/art-spot/src/base32.rs:32-39 | the index read off a value's five low bits is the value, as the `as usize` conversion gives |
| Base32.LetterIsAlphabet | packages/art-spot/src/base32.rs:4 | the letter for an index is the alphabet entry at that index |
| Base32.SymbolCharIsTable | packages/art-spot/src/base32.rs:32-39 | the character for a 5-bit value is `alphabet[v]` |
| Base32.InverseIsTable | packages/art-spot/src/base32.rs:7-12 | the inverse entry for an index is the table's entry |
| Base32.SymbolValueIsTable | packages/art-spot/src/base32.rs:76-79 | the value of a character is the table entry at the character minus `'0'` with wrap-around, None at -1 or past the table |
| Base32.EncodeChunk | packages/art-spot/src/base32.rs:32-39 | eight values below 32 |
| Base32.EncodeChunkMsbFirst | packages/art-spot/src/base32.rs:32-39 | the values are the group's 40 bits, five at a time, most significant first |
| Base32.DecodeChunk | packages/art-spot/src/base32.rs:83-87 | eight values give five bytes |
| Base32.ChunkRoundTrip | packages/art-spot/src/base32.rs:32-87 | decoding a group undoes encoding it |
| Base32.EncodeGroups | packages/art-spot/src/base32.rs:24-40 | eight values below 32 per started group of five bytes |
| Base32.EncodedLengthIsCeiling | packages/art-spot/src/base32.rs:42-51 | the kept length is ceil(8n/5) |
| Base32.EncodedLengthOfGroups | packages/art-spot/src/base32.rs:42-51 | the truncation keeps eight characters per whole group and `(8m + 4) / 5` of a last group of m bytes |
| Base32.EncodeSpec | packages/art-spot/src/base32.rs:20-55 | the output has ceil(8n/5) characters, all of the alphabet, no padding |
| Base32.TrailingPads | packages/art-spot/src/base32.rs:63-69 | at most the limit and at most the length |
| Base32.DecodeSpec | packages/art-spot/src/base32.rs:57-91 | an accepted input gives five bytes per eight unpadded characters, rounded down |
| Base32.DecodeSpecAccepted | packages/art-spot/src/base32.rs:57-91 | an input whose characters all have values decodes to its groups' bytes, cut to five per eight unpadded characters |
| Base32.DecodeRejects | packages/art-spot/src/base32.rs:72-80 | any character outside the alphabet is refused, lower case included, and so is `=`: the decoder counts trailing padding but looks it up in the table without a padding entry, so padded input never decodes |
| Base32.DecodeAccepts | packages/art-spot/src/base32.rs:57-91 | a string of the alphabet is always accepted |
| Base32.DroppedValuesZero | packages/art-spot/src/base32.rs:42-51 | the characters cut from a short last group are zero |
| Base32.ShortGroupRoundTrip | packages/art-spot/src/base32.rs:42-89 | the characters kept from a short group decode back to its bytes |
| Base32.DecodeGroupsEncodeValues | packages/art-spot/src/base32.rs:20-91 | decoding the kept values gives the data back, followed only by padding |
| Base32.DecodeEncode | packages/art-spot/src/base32.rs:20-91 | decode(encode(d)) == Some(d) for every byte sequence |
| Base32.EmptyCases | packages/art-spot/src/base32.rs:20-91 | the empty input encodes to "" and "" decodes to no bytes |
| Base32.CopyGroup | packages/art-spot/src/base32.rs:25-31 | the zeroed buffer with the group copied to its front |
| Base32.Encode | packages/art-spot/src/base32.rs:20-55 | the loop computes `EncodeSpec` |
| Base32.LookupGroup | packages/art-spot/src/base32.rs:73-82 | the zero-padded values of a group, None exactly at a character outside the table |
| Base32.UnpaddedLength | packages/art-spot/src/base32.rs:63-69 | the length without at most six trailing `=` |
| Base32.Decode | packages/art-spot/src/base32.rs:57-91 | the loop computes `DecodeSpec` |
| Yocto.UnitsFit | packages/as-sdk/src/yocto_near.rs:10-11 | one NEAR is 1000 milliNEAR and fits in u128 |
| Yocto.FromNear | packages/as-sdk/src/yocto_near.rs:17-19 | the product, aborting exactly on overflow |
| Yocto.FromMillinear | packages/as-sdk/src/yocto_near.rs:21-23 | the product, aborting exactly on overflow |
| Yocto.AsNear | packages/as-sdk/src/yocto_near.rs:25-27 | whole NEAR rounded down |
| Yocto.AsMillinear | packages/as-sdk/src/yocto_near.rs:29-31 | whole milliNEAR rounded down |
| Yocto.NearRoundTrip | packages/as-sdk/src/yocto_near.rs:17-27 | as_near(from_near(n)) == n when it fits |
| Yocto.MillinearRoundTrip | packages/as-sdk/src/yocto_near.rs:21-31 | as_millinear(from_millinear(m)) == m when it fits |
| Yocto.AsNearOfMillinear | packages/as-sdk/src/yocto_near.rs:25-31 | whole NEAR are whole milliNEAR divided by 1000 |
| Yocto.SaturatingAdd | packages/as-sdk/src/yocto_near.rs:33-35 | the sum clamped to the largest u128 |
| Yocto.SaturatingSub | packages/as-sdk/src/yocto_near.rs:37-39 | the difference clamped at 0 |
| Yocto.SaturatingMul | packages/as-sdk/src/yocto_near.rs:41-43 | the product clamped to the largest u128 |
| Yocto.SaturatingDiv | packages/as-sdk/src/yocto_near.rs:45-47 | the floor quotient; a zero divisor aborts |
| Yocto.CheckedAddYocto | packages/as-sdk/src/yocto_near.rs:49-55 | None exactly on overflow, else the sum |
| Yocto.CheckedSubYocto | packages/as-sdk/src/yocto_near.rs:57-63 | None exactly on underflow, else the difference |
| Yocto.CheckedMulYocto | packages/as-sdk/src/yocto_near.rs:65-71 | None exactly on overflow, else the product |
| Yocto.CheckedDivYocto | packages/as-sdk/src/yocto_near.rs:73-79 | None exactly for a zero divisor, else the floor quotient |
| Yocto.SaturatingAgreesWithChecked | packages/as-sdk/src/yocto_near.rs:33-79 | the operators agree with the checked results where those succeed and sit at the bound where they fail |
| Yocto.ZeroOrSome | packages/as-sdk/src/yocto_near.rs:81-87 | exactly one of `is_zero` and `is_some` holds |
| Yocto.ToString | packages/as-sdk/src/yocto_near.rs:89-91 | decimal digits that read back as the amount |
| Yocto.ToYoctoString | packages/as-sdk/src/yocto_near.rs:93-95 | the amount's digits then " YoctoNEAR" |
| Yocto.ToNearString | packages/as-sdk/src/yocto_near.rs:97-99 | the whole NEAR's digits then " NEAR" |
| Yocto.U128RoundTrip | packages/as-sdk/src/yocto_near.rs:102-124 | the u128 conversions are inverse to each other |
| Yocto.EqualityComparesAmount | packages/as-sdk/src/yocto_near.rs:251-269 | equality, also with a u128, compares the amounts |
| Yocto.DisplayMillinear | packages/as-sdk/src/yocto_near.rs:176-185 | between 1 and 999 milliNEAR the display is "0.ddd NEAR", whose digits read as the milliNEAR rounded up |
| Yocto.HundredthsRounding | packages/as-sdk/src/yocto_near.rs:186-188 | the hundredths are rounded up, unless adding the rounding term saturates |
| Yocto.DisplayHundredths | packages/as-sdk/src/yocto_near.rs:186-197 | above 999 milliNEAR the display is whole NEAR, a dot and two digits, reading as the rounded hundredths |
| Versioning.FromTriple | packages/as-sdk/src/version/mod.rs:169-173 | a stable version without build tag with the three numbers |
| Versioning.ToString | packages/as-sdk/src/version/mod.rs:22-31 | the text starts with `v` |
| Versioning.CompatibleIsEquivalence | packages/as-sdk/src/version/mod.rs:51-53 | compatibility is reflexive, symmetric and transitive |
| Versioning.TagPredicates | packages/as-sdk/src/version/mod.rs:55-89 | stable iff not prerelease; each tag predicate iff its field is that word; at most one pre-release word and one build word hold |
| Versioning.EqIsIdentity | packages/as-sdk/src/version/mod.rs:181-189 | equality compares all five fields |
| Versioning.PartialCmp | packages/as-sdk/src/version/mod.rs:193-216 | Equal iff the numbers and the pre-release tag agree |
| Versioning.CmpAntisymmetric | packages/as-sdk/src/version/mod.rs:193-216 | swapping the operands reverses the answer |
| Versioning.CmpTransitive | packages/as-sdk/src/version/mod.rs:193-216 | the order is transitive |
| Versioning.PrereleaseBelowStable | packages/as-sdk/src/version/mod.rs:204-209 | a prerelease ranks below its stable version; the build tag never changes the order |
| Versioning.EqDisagreesWithCmp | packages/as-sdk/src/version/mod.rs:181-216 | versions differing only in the build tag are unequal yet compare Equal |
| Versioning.SplitOnce | packages/as-sdk/src/version/mod.rs:94-101 | the text before the first separator, and the rest after it when there is one |
| Versioning.ParseU8Show | packages/as-sdk/src/version/mod.rs:99-102 | the decimal text of a u8 parses back to it |
| Versioning.Parse | packages/as-sdk/src/version/mod.rs:92-107 | aborts without a leading `v`; the build tag is always None; a pre-release tag never holds `-` or `+` |
| Versioning.ParseToString | packages/as-sdk/src/version/mod.rs:92-107 | parsing a version's text keeps the numbers and loses both tags, so it round-trips exactly for stable versions without build tag |
| Versioning.ParseDottedPre | packages/as-sdk/src/version/mod.rs:101-103 | the pre-release tag is read from a fourth `.`-separated field |
| Versioning.FirstIndex | packages/as-sdk/src/version/mod.rs:130-133 | the first index of a byte, None exactly when absent |
| Versioning.Position | packages/as-sdk/src/version/mod.rs:130-133 | the search loop computes `FirstIndex` |
| Versioning.VersionFromBytes | packages/as-sdk/src/version/mod.rs:122-138 | fewer than 3 bytes abort; the numbers are the first three bytes; a pre-release tag exists iff a `-` follows them and starts with it; a build tag starts with `+` |
| Versioning.FromBytes | packages/as-sdk/src/version/mod.rs:122-138 | the remove-and-drain steps compute `VersionFromBytes` |
| Versioning.FromBytesExamples | packages/as-sdk/src/version/mod.rs:122-138 | three bytes give the triple's version; a `+` after a `-` stays in the pre-release tag; `+c-b` splits into both tags |

## Left out

- Promises and cross-contract calls are left out. `ft_transfer_call` returns the scheduled call as a value. The receiver's answer reaches the resolve step as a parameter, already parsed or failed. The JSON parsing itself is library code.
- The `create_account` and `on_account_created` entry points are left out, because they only build promises. `create_contract` is modelled up to its checks (`ArtSpotContract.ArtSpot.CreateContractCheck`).
- ArtSpotContract.ArtSpot.CreateContractCheck: the parse of `{prefix}.{current}` into an `AccountId` and the host's account-id validity test are library code. Their combined verdict is the parameter `subaccountValid`, and a parse panic is treated like an invalid sub-account.
- Event logs (NEP-297 JSON) are abstract datatype values, not formatted text.
- Token metadata is not modelled: `new_default_meta`, `ft_metadata`, `set_metadata` and the getters.
- The host's measurement of an account entry's size at initialisation is a constructor parameter.
- The tracker a user embeds is a separate object in the model, and users are stored as serialised, where the tracker is skipped. The abort its `Drop` guard causes in account creation and `update_account` is a finding below.
- The id inside a stored user is read back through `Id::new` when the user is loaded, which can change its kind (an art-spot id whose text ends in `near` comes back as Near). The model keeps the id as stored; no operation depends on a stored id's kind.
- Entry-point arguments of type `Id` (`new`, `set_owner`, `add_to_allowlist`, `update_account`) are JSON-decoded through `Id::new`; the model takes them already decoded.
- NearHost.AssertInit: near-sdk's own `#[init]` check of existing state runs before the contract's `require!` and aborts with the SDK's message; the model gives the contract's message "Already initialized".
- The art-spot `utils` module (its `require` and `unwrap`) is not part of this model. Its unwrap message is taken to be the SDK's "unwrap! called on a None value".
- Host account-id parsing, the serde/JSON-schema/Borsh encodings of `Id`, `YoctoNear` and `Version`, and `YoctoNear`'s `FromStr` are left out.
- Id lengths are counted in characters, while the source counts UTF-8 bytes. The two agree on every string the character scan accepts.
- u64 storage, gas and timestamp counters are unbounded `nat`, so their overflow is not modelled.
- Yocto.FromNear: an overflow of `from_near`/`from_millinear` is modelled as the abort of an overflow-checked build, not as a wrap-around.
- Versioning.VersionFromBytes: the tags are decoded as ASCII only. A non-ASCII byte after the numbers gives the UTF-8 unwrap abort, even where the bytes are valid UTF-8. The abort message is shortened.
- `Version::as_str`, `as_bytes`, `From<Version> for String`, `From<Version> for &[u8]` and `From<Version> for Vec<u8>` are left out. As written they return references to temporaries or a value of the wrong type, so they do not compile.
- The derived `Ord` of `Version` is left out: it disagrees with the hand-written `PartialOrd`, and nothing in the core uses it.
- Ordering: strings are compared by character code. This agrees with Rust's byte-wise order of UTF-8 for the ids and tags in this model.
- The unit tests in as-sdk `id/mod.rs` expect `validate("alice.near")` to succeed. The code rejects every `.`. The model follows the code (`IdSyntax.DotNeverValid`, `IdArtSpot.NewDottedAborts`).

## Findings

| source | as written | input that shows it | evidently intended | confidence | as-written member | corrected member |
|---|---|---|---|---|---|---|
| packages/art-spot/src/storage_tracker.rs:55-64 | `consume` adds the other tracker's added bytes but assigns its released bytes, discarding the released bytes already counted | a tracker that has released 7 bytes consumes one that released none: 0 released bytes remain | both counters are accumulated | high (not executed) | StorageTracking.StorageTracker.Consume | StorageTracking.StorageTracker.ConsumeMerging |
| packages/art-spot/src/storage.rs:38-46 | `internal_create_account` stores a `clone()` of the new user while its tracker's span is open. The insert in `internal_set_account` (storage.rs:70) returns that clone as the previous value of `near_sdk::store::LookupMap::insert` and drops it, so the tracker's `Drop` guard aborts | `storage_deposit` for an unregistered `alice` with 1 NEAR attached aborts "Bug, non-tracked storage change" | the account is stored with a closed, cleared tracker and the deposit succeeds | high (not executed; rests on the SDK map returning its cached value) | ArtSpotContract.ArtSpot.InternalCreateAccountAsWritten | ArtSpotContract.ArtSpot.InternalCreateAccount |
| packages/art-spot/src/lib.rs:239-242 | `update_account` stores `user.clone()` while the span is open, and the insert in `internal_set_account` returns that clone and drops it | any update of an existing user whose growth the balance covers aborts "Bug, non-tracked storage change" | the updated user is stored and charged | high (not executed; rests on the SDK map returning its cached value) | ArtSpotContract.ArtSpot.UpdateAccountAsWritten | ArtSpotContract.ArtSpot.UpdateAccount |
| packages/art-spot/src/update.rs:27-51 | `deploy` aborts "Deploy code too early" when the staging timestamp is already in the past, and deploys while it is still ahead | code staged for time 100: at time 200 it aborts as too early, at time 50 it deploys | deploy only once the staging timestamp has been reached | high (not executed) | ArtSpotContract.ArtSpot.Deploy | ArtSpotContract.ArtSpot.DeployAfterStaging |

The scenarios that exhibit the findings are `StorageTracking.ConsumeLosesReleasedBytes`, `ArtSpotContract.UntrackedCopyScenario` and `ArtSpotContract.DeployGateScenario`.
