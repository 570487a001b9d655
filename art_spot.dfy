/** The `ArtSpot` contract: its owner and allowlist gates, the user
    registry with NEP-145 storage management (rent paid per stored byte),
    profile updates, and the staged code-upgrade gate.

    The contract's `Id` is the one of the shared `as-sdk` crate (module
    `IdSdk`). Host inputs are parameters: the caller's account name, which
    `ctx::predecessor_id()` (ctx.rs:75-77) reads through `Id::new` and so
    may abort, the attached deposit, the block timestamp, the storage byte
    cost and the host's storage-usage counter read when a tracker starts
    and when it stops. Outgoing refunds and transfers are returned as
    amounts; promises are not modelled. */
module ArtSpotContract {
  import opened Wrappers
  import opened Uint
  import opened NearHost
  import opened IdSdk
  import opened IdSyntax
  import opened Users
  import opened Ctx
  import opened StorageTracking
  import Decimal
  import Yocto

  /** storage.rs:9 */
  const MIN_STORAGE_BYTES: nat := 2000

  const ERR_UNWRAP := "unwrap! called on a None value"
  const ERR_NOT_OWNER := "Only owner can call this method"
  const ERR_NOT_ALLOWLISTED := "Only allowlisted accounts can call this method"
  const ERR_NO_ROLE := "Only accounts with the required role can call this method"
  const ERR_INVALID_SUBACCOUNT := "Invalid subaccount"

  /** The abort message of `create_contract` for a short deposit. */
  function AttachAtLeast(minimum: u128): string
  {
    "Attach at least " + Yocto.Display(Yocto.YoctoNear(minimum)) + " yⓃ"
  }
  const ERR_DEPOSIT_BELOW_MIN := "The attached deposit is less than the minimum storage balance"
  const ERR_ACCOUNT_EXISTS := "Internal bug. Account already exists."
  const ERR_ACCOUNTING := "Internal storage accounting bug"
  const ERR_NOT_COVERED := "Not enough storage balance"
  const ERR_WITHDRAW_TOO_MUCH := "The amount is greater than the available storage balance"
  const ERR_UNTRACKED := "Bug, non-tracked storage change"

  datatype StorageBalance = StorageBalance(total: u128, available: u128)

  datatype StorageBalanceBounds = StorageBalanceBounds(min: u128, max: Option<u128>)

  /** `storage_balance_bounds` (storage.rs:183-192): the rent for 2000
      bytes, saturating, and no maximum. */
  function BalanceBounds(byteCost: u128): (b: StorageBalanceBounds)
    ensures byteCost * MIN_STORAGE_BYTES <= U128_MAX ==> b.min == byteCost * MIN_STORAGE_BYTES
    ensures byteCost * MIN_STORAGE_BYTES > U128_MAX ==> b.min == U128_MAX
    ensures b.max.None?
  {
    StorageBalanceBounds(SatMul(byteCost, MIN_STORAGE_BYTES), None)
  }

  /** The storage balance of one user: the whole deposit, and what is left
      after the rent for its bytes, never below zero. */
  function BalanceOf(user: User, byteCost: u128): (b: StorageBalance)
    ensures b.total == user.storageBalance && b.available <= b.total
    ensures AssertStorageCovered(user, byteCost).Pass? ==>
              b.available + SatMul(byteCost, user.usedBytes) == b.total
    ensures AssertStorageCovered(user, byteCost).Fail? ==> b.available == 0
  {
    StorageBalance(user.storageBalance, SatSub(user.storageBalance, SatMul(byteCost, user.usedBytes)))
  }

  /** The used-bytes update of `internal_set_account` (storage.rs:49-66):
      a net growth is added and must then be covered by the balance; a
      net shrink is subtracted and must not exceed the bytes in use. */
  function ApplyUsage(account: User, added: nat, released: nat, byteCost: u128): (r: Result<User>)
    ensures r.Ok? ==> r.value == account.(usedBytes := r.value.usedBytes)
                      && r.value.usedBytes + released == account.usedBytes + added
    ensures r.Ok? && added > released ==> AssertStorageCovered(r.value, byteCost).Pass?
    ensures r.Err? <==>
              (added > released
               && AssertStorageCovered(account.(usedBytes := account.usedBytes + (added - released)), byteCost).Fail?)
              || (added < released && account.usedBytes < released - added)
    ensures r.Err? ==> r.msg == ERR_NOT_COVERED || r.msg == ERR_ACCOUNTING
    ensures added == released ==> r == Ok(account)
  {
    if added > released then
      var grown := account.(usedBytes := account.usedBytes + (added - released));
      match AssertStorageCovered(grown, byteCost)
      case Fail(msg) => Err(msg)
      case Pass => Ok(grown)
    else if added < released then
      if account.usedBytes >= released - added then Ok(account.(usedBytes := account.usedBytes - (released - added)))
      else Err(ERR_ACCOUNTING)
    else Ok(account)
  }

  /** A span that writes bytes and a later span that deletes the same
      bytes leave the used bytes where they were. */
  lemma ApplyUsageGrowThenShrink(account: User, x: nat, byteCost: u128)
    requires ApplyUsage(account, x, 0, byteCost).Ok?
    ensures ApplyUsage(ApplyUsage(account, x, 0, byteCost).value, 0, x, byteCost) == Ok(account)
  {
  }

  /** What the source's tracker measures over one `start`/`stop` span. */
  function SpanBytes(usageBefore: nat, usageAfter: nat): (h: StorageHistory)
    ensures h.bytesAdded - h.bytesReleased == usageAfter - usageBefore
    ensures h.bytesAdded == 0 || h.bytesReleased == 0
  {
    Record(DefaultHistory(), usageBefore, usageAfter)
  }

  /** The new account of `internal_create_account` (storage.rs:12-36),
      before its bytes are charged, with the refund owed to the caller:
      the deposit must reach the minimum balance and the id must have a
      name; a registration-only deposit keeps the minimum and refunds the
      rest, any other deposit is kept whole. */
  function NewAccount(id: Id, storageDeposit: u128, registrationOnly: bool, byteCost: u128, now: nat)
    : (r: Result<(User, u128)>)
    ensures r.Ok? <==> storageDeposit >= BalanceBounds(byteCost).min && Name(id).Some?
    ensures r.Err? && storageDeposit < BalanceBounds(byteCost).min ==> r.msg == ERR_DEPOSIT_BELOW_MIN
    ensures r.Ok? ==> var (user, refund) := r.value;
              user == NewUser(id, "", Name(id).value, now).(storageBalance := user.storageBalance)
              && user.storageBalance + refund == storageDeposit
              && user.storageBalance >= BalanceBounds(byteCost).min
              && (registrationOnly ==> user.storageBalance == BalanceBounds(byteCost).min)
              && (!registrationOnly ==> refund == 0)
  {
    var minBalance := BalanceBounds(byteCost).min;
    if storageDeposit < minBalance then Err(ERR_DEPOSIT_BELOW_MIN)
    else match Name(id)
      case None => Err(ERR_UNWRAP)
      case Some(name) =>
        var account := NewUser(id, "", name, now);
        if registrationOnly then Ok((account.(storageBalance := minBalance), SatSub(storageDeposit, minBalance)))
        else Ok((account.(storageBalance := storageDeposit), 0))
  }

  /** A new account is charged for the bytes its insertion took. */
  lemma NewAccountCharged(id: Id, deposit: u128, registrationOnly: bool, byteCost: u128, now: nat,
                          usageBefore: nat, usageAfter: nat)
    requires NewAccount(id, deposit, registrationOnly, byteCost, now).Ok?
    requires usageBefore <= usageAfter
    ensures var stored := ApplyUsage(NewAccount(id, deposit, registrationOnly, byteCost, now).value.0,
                                     SpanBytes(usageBefore, usageAfter).bytesAdded,
                                     SpanBytes(usageBefore, usageAfter).bytesReleased, byteCost);
            stored.Ok? ==> stored.value.usedBytes == usageAfter - usageBefore
                           && AssertStorageCovered(stored.value, byteCost).Pass?
  {
  }

  /** The profile part of `update_account` (lib.rs:199-219): a supplied
      email or name replaces the old one, a supplied bio, avatar or cover
      becomes present; nothing else changes. */
  function ApplyProfile(user: User, email: Option<string>, name: Option<string>, bio: Option<string>,
                        avatar: Option<string>, cover: Option<string>): (u: User)
    ensures u.(email := user.email, name := user.name, bio := user.bio, avatar := user.avatar,
               cover := user.cover) == user
    ensures u.email == (if email.Some? then email.value else user.email)
    ensures u.name == (if name.Some? then name.value else user.name)
    ensures u.bio == (if bio.Some? then bio else user.bio)
    ensures u.avatar == (if avatar.Some? then avatar else user.avatar)
    ensures u.cover == (if cover.Some? then cover else user.cover)
  {
    var u := if email.Some? then user.(email := email.value) else user;
    var u := if name.Some? then u.(name := name.value) else u;
    var u := if bio.Some? then u.(bio := bio) else u;
    var u := if avatar.Some? then u.(avatar := avatar) else u;
    if cover.Some? then u.(cover := cover) else u
  }

  class ArtSpot {
    var owner: Id
    var stagingDuration: nat
    var stagingTimestamp: nat
    var allowlist: seq<Id>
    /** The users `LookupMap`, keyed by the stored text of the id (its
        Borsh encoding). */
    var users: map<string, User>
    /** The raw storage key `"upgrade"` written by `stage`. */
    var upgrade: Option<seq<u8>>

    /** Every user is stored under its own id. */
    ghost predicate Valid()
      reads this
    {
      forall k :: k in users ==> users[k].id.s == k
    }

    /** `new` (lib.rs:66-79): the owner is the only allowlisted account, no
        users, nothing staged. This is the state once the gates of
        `NearHost.AssertInit` have passed. */
    constructor (ownerId: Id, stagingDuration: nat)
      ensures owner == ownerId && this.stagingDuration == stagingDuration
      ensures stagingTimestamp == 0 && allowlist == [ownerId]
      ensures users == map[] && upgrade.None?
      ensures Valid()
    {
      owner := ownerId;
      this.stagingDuration := stagingDuration;
      stagingTimestamp := 0;
      allowlist := [ownerId];
      users := map[];
      upgrade := None;
    }

    /** `assert_owner` (internal.rs:8-13): the caller, read as an `Id`,
        must be the owner; ids compare by their text. */
    function AssertOwner(predecessor: string): (r: Outcome)
      reads this
      ensures r.Pass? <==> New(predecessor).Ok? && New(predecessor).value.s == owner.s
      ensures New(predecessor).Err? ==> r == Fail(New(predecessor).msg)
      ensures New(predecessor).Ok? && r.Fail? ==> r.msg == ERR_NOT_OWNER
    {
      match New(predecessor)
      case Err(msg) => Fail(msg)
      case Ok(caller) => if caller.s == owner.s then Pass else Fail(ERR_NOT_OWNER)
    }

    /** `assert_self` (internal.rs:15-20): the caller and the contract's
        own account, both read as ids, must be the same. */
    static function AssertSelf(predecessor: string, current: string): (r: Outcome)
      ensures r.Pass? <==> New(predecessor).Ok? && New(current).Ok?
                           && New(predecessor).value.s == New(current).value.s
      ensures New(predecessor).Err? ==> r == Fail(New(predecessor).msg)
    {
      match New(predecessor)
      case Err(msg) => Fail(msg)
      case Ok(caller) =>
        match New(current)
        case Err(msg) => Fail(msg)
        case Ok(self) =>
          if caller.s == self.s then Pass else Fail("Callback can only be called from the contract")
    }

    /** `assert_allowlisted` (internal.rs:22-29): the caller must occur
        somewhere in the allowlist. The caller is read inside the search,
        so an empty allowlist refuses without reading it. */
    function AssertAllowlisted(predecessor: string): (r: Outcome)
      reads this
      ensures r.Pass? <==> New(predecessor).Ok?
                           && exists i :: 0 <= i < |allowlist| && allowlist[i].s == New(predecessor).value.s
      ensures |allowlist| == 0 ==> r == Fail(ERR_NOT_ALLOWLISTED)
      ensures |allowlist| > 0 && New(predecessor).Err? ==> r == Fail(New(predecessor).msg)
      ensures New(predecessor).Ok? && r.Fail? ==> r.msg == ERR_NOT_ALLOWLISTED
    {
      if |allowlist| == 0 then Fail(ERR_NOT_ALLOWLISTED)
      else match New(predecessor)
        case Err(msg) => Fail(msg)
        case Ok(caller) =>
          if exists i :: 0 <= i < |allowlist| && allowlist[i].s == caller.s then Pass
          else Fail(ERR_NOT_ALLOWLISTED)
    }

    /** `internal_get_account` (internal.rs:44-46) */
    function InternalGetAccount(id: Id): (r: Option<User>)
      reads this
      ensures r.Some? <==> id.s in users
      ensures r.Some? ==> r.value == users[id.s]
    {
      if id.s in users then Some(users[id.s]) else None
    }

    /** `internal_unwrap_account` (internal.rs:48-50): aborts exactly when
        there is no account, and otherwise gives the stored one. */
    function InternalUnwrapAccount(id: Id): (r: Result<User>)
      reads this
      ensures r.Ok? <==> InternalGetAccount(id).Some?
      ensures r.Ok? ==> r.value == InternalGetAccount(id).value
    {
      match InternalGetAccount(id)
      case Some(user) => Ok(user)
      case None => Err(ERR_UNWRAP)
    }

    /** `assert_role` (internal.rs:31-38): a caller that is not an id or
        not registered aborts; a registered one passes exactly when it
        holds the role. */
    function AssertRole(predecessor: string, role: Role): (r: Outcome)
      reads this
      ensures New(predecessor).Err? ==> r == Fail(New(predecessor).msg)
      ensures New(predecessor).Ok? && New(predecessor).value.s !in users ==> r == Fail(ERR_UNWRAP)
      ensures New(predecessor).Ok? && New(predecessor).value.s in users ==>
                (r.Pass? <==> role in users[New(predecessor).value.s].roles)
    {
      match New(predecessor)
      case Err(msg) => Fail(msg)
      case Ok(caller) =>
        match InternalUnwrapAccount(caller)
        case Err(msg) => Fail(msg)
        case Ok(user) => if role in user.roles then Pass else Fail(ERR_NO_ROLE)
    }

    /** `assert_admin` (internal.rs:40-42) */
    function AssertAdmin(predecessor: string): (r: Outcome)
      reads this
      ensures r.Pass? <==> New(predecessor).Ok? && New(predecessor).value.s in users
                           && Admin in users[New(predecessor).value.s].roles
    {
      AssertRole(predecessor, Admin)
    }

    /** `set_owner` (lib.rs:85-88) */
    method SetOwner(predecessor: string, id: Id) returns (r: Outcome)
      modifies this`owner
      ensures r == old(AssertOwner(predecessor))
      ensures owner == if r.Pass? then id else old(owner)
    {
      r := AssertOwner(predecessor);
      if r.Pass? {
        owner := id;
      }
    }

    /** `add_to_allowlist` (lib.rs:94-97): appended even when present. */
    method AddToAllowlist(predecessor: string, accountId: Id) returns (r: Outcome)
      modifies this`allowlist
      ensures r == AssertOwner(predecessor)
      ensures allowlist == if r.Pass? then old(allowlist) + [accountId] else old(allowlist)
    {
      r := AssertOwner(predecessor);
      if r.Pass? {
        allowlist := allowlist + [accountId];
      }
    }

    /** The checks of `create_contract` (lib.rs:140-165) before the
        promise is built: the caller must be allowlisted, the sub-account
        `{prefix}.{current}` must be a valid account id, and the attached
        deposit must cover the storage of the code at the byte cost
        (the product saturating at the u128 maximum); the abort message
        names that minimum as `YoctoNear` displays it. On success the
        whole deposit goes to the new account. */
    function CreateContractCheck(predecessor: string, subaccountValid: bool, attached: u128,
                                 codeLength: u128, byteCost: u128): (r: Result<u128>)
      reads this
      ensures r.Ok? <==> AssertAllowlisted(predecessor).Pass? && subaccountValid
                         && attached >= Min(byteCost * codeLength, U128_MAX)
      ensures r.Ok? ==> r.value == attached
      ensures AssertAllowlisted(predecessor).Fail? ==> r == Err(AssertAllowlisted(predecessor).msg)
      ensures AssertAllowlisted(predecessor).Pass? && !subaccountValid ==> r == Err(ERR_INVALID_SUBACCOUNT)
      ensures AssertAllowlisted(predecessor).Pass? && subaccountValid && attached < Min(byteCost * codeLength, U128_MAX)
              ==> r == Err(AttachAtLeast(Min(byteCost * codeLength, U128_MAX)))
    {
      if AssertAllowlisted(predecessor).Fail? then Err(AssertAllowlisted(predecessor).msg)
      else if !subaccountValid then Err(ERR_INVALID_SUBACCOUNT)
      else
        var minimumNeeded := Yocto.SaturatingMul(Yocto.YoctoNear(byteCost), codeLength);
        if attached >= minimumNeeded.yocto then Ok(attached)
        else Err(AttachAtLeast(minimumNeeded.yocto))
    }

    /** One role name of `update_account` (lib.rs:222-234): it must name a
        role; granting Admin needs an allowlisted caller and granting
        Moderator an Admin caller. */
    function GrantRole(predecessor: string, roleName: string): (r: Result<Role>)
      reads this
      ensures r.Ok? <==> RoleFromStr(roleName).Ok?
                         && (RoleFromStr(roleName).value == Admin ==> AssertAllowlisted(predecessor).Pass?)
                         && (RoleFromStr(roleName).value == Moderator ==> AssertAdmin(predecessor).Pass?)
      ensures r.Ok? ==> r == RoleFromStr(roleName)
    {
      match RoleFromStr(roleName)
      case Err(msg) => Err(msg)
      case Ok(role) =>
        if role == Admin && AssertAllowlisted(predecessor).Fail? then Err(AssertAllowlisted(predecessor).msg)
        else if role == Moderator && AssertAdmin(predecessor).Fail? then Err(AssertAdmin(predecessor).msg)
        else Ok(role)
    }

    /** The new role list of `update_account`: every name granted in order,
        the first refusal aborting. */
    function GrantRoles(predecessor: string, roleNames: seq<string>): (r: Result<seq<Role>>)
      reads this
      ensures r.Ok? <==> forall i :: 0 <= i < |roleNames| ==> GrantRole(predecessor, roleNames[i]).Ok?
      ensures r.Ok? ==> |r.value| == |roleNames|
                        && forall i :: 0 <= i < |roleNames| ==> RoleFromStr(roleNames[i]) == Ok(r.value[i])
      ensures r.Ok? && Admin in r.value ==> AssertAllowlisted(predecessor).Pass?
      ensures r.Ok? && Moderator in r.value ==> AssertAdmin(predecessor).Pass?
      decreases |roleNames|
    {
      if |roleNames| == 0 then Ok([])
      else match GrantRole(predecessor, roleNames[0])
        case Err(msg) => Err(msg)
        case Ok(role) =>
          match GrantRoles(predecessor, roleNames[1..])
          case Err(msg) => Err(msg)
          case Ok(rest) =>
            assert forall i :: 1 <= i < |roleNames| ==> roleNames[1..][i - 1] == roleNames[i];
            Ok([role] + rest)
    }

    /** The user `update_account` stores, before its bytes are charged. */
    function UpdatedUser(predecessor: string, id: Id, email: Option<string>, name: Option<string>,
                         bio: Option<string>, avatar: Option<string>, cover: Option<string>,
                         roles: Option<seq<string>>): (r: Result<User>)
      reads this
      ensures r.Ok? <==> id.s in users && (roles.Some? ==> GrantRoles(predecessor, roles.value).Ok?)
      ensures r.Ok? ==> r.value.(roles := users[id.s].roles)
                        == ApplyProfile(users[id.s], email, name, bio, avatar, cover)
      ensures r.Ok? ==> r.value.roles == if roles.Some? then GrantRoles(predecessor, roles.value).value
                                         else users[id.s].roles
    {
      match InternalUnwrapAccount(id)
      case Err(msg) => Err(msg)
      case Ok(user) =>
        var user := ApplyProfile(user, email, name, bio, avatar, cover);
        if roles.None? then Ok(user)
        else match GrantRoles(predecessor, roles.value)
          case Err(msg) => Err(msg)
          case Ok(newRoles) => Ok(user.(roles := newRoles))
    }

    /** `internal_set_account` (storage.rs:49-71): charges the tracker's
        delta to the account, clears the tracker's counters and stores the
        account; answers whether an account was stored under that id. */
    method InternalSetAccount(id: Id, account: User, tracker: StorageTracker, byteCost: u128)
      returns (r: Result<bool>)
      modifies this`users, tracker`bytesAdded, tracker`bytesReleased
      ensures var charged := ApplyUsage(account, old(tracker.bytesAdded), old(tracker.bytesReleased), byteCost);
              && (r.Ok? <==> charged.Ok?)
              && (r.Ok? ==> users == old(users)[id.s := charged.value] && r.value == (id.s in old(users))
                            && tracker.bytesAdded == 0 && tracker.bytesReleased == 0)
              && (r.Err? ==> r.msg == charged.msg && users == old(users)
                             && tracker.bytesAdded == old(tracker.bytesAdded)
                             && tracker.bytesReleased == old(tracker.bytesReleased))
    {
      var charged := ApplyUsage(account, tracker.bytesAdded, tracker.bytesReleased, byteCost);
      if charged.Err? {
        return Err(charged.msg);
      }
      tracker.bytesReleased := 0;
      tracker.bytesAdded := 0;
      var existed := id.s in users;
      users := users[id.s := charged.value];
      r := Ok(existed);
    }

    /** `internal_create_account` (storage.rs:12-47) as evidently
        intended: the new account is inserted between a tracker start and
        stop, then charged for the bytes measured. Returns the refund owed
        to the caller. */
    method InternalCreateAccount(id: Id, storageDeposit: u128, registrationOnly: bool, byteCost: u128,
                                 now: nat, usageBefore: nat, usageAfter: nat)
      returns (r: Result<u128>)
      requires Valid()
      modifies this`users
      ensures Valid()
      ensures var created := NewAccount(id, storageDeposit, registrationOnly, byteCost, now);
              var span := SpanBytes(usageBefore, usageAfter);
              var stored := if created.Ok? then ApplyUsage(created.value.0, span.bytesAdded, span.bytesReleased, byteCost)
                            else Err("");
              && (r.Ok? <==> created.Ok? && id.s !in old(users) && stored.Ok?)
              && (r.Ok? ==> users == old(users)[id.s := stored.value] && r.value == created.value.1)
              && (r.Err? ==> users == old(users))
    {
      var created := NewAccount(id, storageDeposit, registrationOnly, byteCost, now);
      if created.Err? {
        return Err(created.msg);
      }
      var (account, refund) := created.value;
      var savedUsers := users;
      var tracker := new StorageTracker();
      var ok := tracker.Start(usageBefore);
      if id.s in users {
        return Err(ERR_ACCOUNT_EXISTS);
      }
      users := users[id.s := account];
      ok := tracker.Stop(usageAfter);
      var saved := InternalSetAccount(id, account, tracker, byteCost);
      if saved.Err? {
        users := savedUsers;
        return Err(saved.msg);
      }
      r := Ok(refund);
    }

    /** `internal_create_account` as written. The first insert stores a
        clone of the account taken while its tracker's span is open; the
        second insert, in `internal_set_account` (storage.rs:70), hands
        that clone back as the previous value and drops it, and the
        tracker's `Drop` guard aborts. So no account is ever created: the
        call fails wherever the intended one succeeds. */
    method InternalCreateAccountAsWritten(id: Id, storageDeposit: u128, registrationOnly: bool,
                                          byteCost: u128, now: nat, usageBefore: nat, usageAfter: nat)
      returns (r: Result<u128>)
      requires Valid()
      modifies this`users
      ensures Valid()
      ensures r.Err? && users == old(users)
      ensures var created := NewAccount(id, storageDeposit, registrationOnly, byteCost, now);
              var span := SpanBytes(usageBefore, usageAfter);
              var stored := if created.Ok? then ApplyUsage(created.value.0, span.bytesAdded, span.bytesReleased, byteCost)
                            else Err("");
              created.Ok? && id.s !in old(users) && stored.Ok? ==> r.msg == ERR_UNTRACKED
    {
      var created := NewAccount(id, storageDeposit, registrationOnly, byteCost, now);
      if created.Err? {
        return Err(created.msg);
      }
      var (account, refund) := created.value;
      var savedUsers := users;
      var tracker := new StorageTracker();
      var ok := tracker.Start(usageBefore);
      // `account.clone()` copies the open span into the stored value
      var storedCopy := tracker.Clone();
      if id.s in users {
        return Err(ERR_ACCOUNT_EXISTS);
      }
      users := users[id.s := account];
      ok := tracker.Stop(usageAfter);
      var saved := InternalSetAccount(id, account, tracker, byteCost);
      users := savedUsers;
      if saved.Err? {
        return Err(saved.msg);
      }
      var dropped := storedCopy.Drop();
      r := Err(dropped.msg);
    }

    /** `internal_storage_balance_of` (storage.rs:73-82) */
    function InternalStorageBalanceOf(id: Id, byteCost: u128): (r: Option<StorageBalance>)
      reads this
      ensures r.Some? <==> id.s in users
      ensures r.Some? ==> r.value == BalanceOf(users[id.s], byteCost)
    {
      match InternalGetAccount(id)
      case None => None
      case Some(account) => Some(BalanceOf(account, byteCost))
    }

    /** `internal_storage_withdraw` (storage.rs:86-109): withdraws the
        requested amount, or everything available, from a registered
        account; the available balance drops by exactly that amount.
        Returns the new balance and the amount sent to the caller. */
    method InternalStorageWithdraw(withdrawFrom: Id, amount: Option<u128>, byteCost: u128)
      returns (r: Result<(StorageBalance, u128)>)
      requires Valid()
      modifies this`users
      ensures Valid()
      ensures r.Err? ==> users == old(users)
      ensures withdrawFrom.s !in old(users) ==> r == Err("The account " + withdrawFrom.s + " is not registered")
      ensures withdrawFrom.s in old(users) ==>
                var before := BalanceOf(old(users)[withdrawFrom.s], byteCost);
                var amt := if amount.Some? then amount.value else before.available;
                && (r.Ok? <==> amt <= before.available)
                && (r.Ok? ==> r.value.1 == amt
                              && users == old(users)[withdrawFrom.s := old(users)[withdrawFrom.s].(storageBalance := before.total - amt)]
                              && r.value.0 == StorageBalance(before.total - amt, before.available - amt))
                && (r.Err? ==> r.msg == ERR_WITHDRAW_TOO_MUCH)
    {
      var balance := InternalStorageBalanceOf(withdrawFrom, byteCost);
      if balance.None? {
        return Err("The account " + withdrawFrom.s + " is not registered");
      }
      var amt := if amount.Some? then amount.value else balance.value.available;
      if amt > balance.value.available {
        return Err(ERR_WITHDRAW_TOO_MUCH);
      }
      if amt > 0 {
        var account := users[withdrawFrom.s];
        account := account.(storageBalance := SatSub(account.storageBalance, amt));
        var tracker := new StorageTracker();
        var saved := InternalSetAccount(withdrawFrom, account, tracker, byteCost);
        assert saved.Ok?;
      }
      var after := InternalStorageBalanceOf(withdrawFrom, byteCost);
      r := Ok((after.value, amt));
    }

    /** `internal_deposit_storage` (storage.rs:111-115): adds to a
        registered account's balance, saturating. */
    method InternalDepositStorage(id: Id, amount: u128) returns (r: Outcome)
      requires Valid()
      modifies this`users
      ensures Valid()
      ensures r.Pass? <==> id.s in old(users)
      ensures r.Pass? ==> users == old(users)[id.s := old(users)[id.s].(storageBalance :=
                                    SatAdd(old(users)[id.s].storageBalance, amount))]
      ensures r.Fail? ==> users == old(users) && r.msg == ERR_UNWRAP
    {
      var account := InternalUnwrapAccount(id);
      if account.Err? {
        return Fail(account.msg);
      }
      var user := account.value.(storageBalance := SatAdd(account.value.storageBalance, amount));
      var tracker := new StorageTracker();
      // no byte was measured, so the byte cost plays no part
      var saved := InternalSetAccount(id, user, tracker, 0);
      assert saved.Ok?;
      r := Pass;
    }

    /** `storage_deposit` (storage.rs:123-150) for the account named
        `accountId` (the argument, or else the caller's account). A
        registered account with `registration_only` is refunded the whole
        deposit; any other registered account has it added to its balance;
        an unregistered one is created. Returns the balance and the refund. */
    method StorageDeposit(accountId: string, registrationOnly: Option<bool>, amount: u128, byteCost: u128,
                          now: nat, usageBefore: nat, usageAfter: nat)
      returns (r: Result<(StorageBalance, u128)>)
      requires Valid()
      modifies this`users
      ensures Valid()
      ensures r.Err? ==> users == old(users)
      ensures New(accountId).Err? ==> r.Err?
      ensures r.Ok? ==> New(accountId).Ok?
                        && var id := New(accountId).value;
                           id.s in users && r.value.0 == BalanceOf(users[id.s], byteCost)
      ensures r.Ok? && New(accountId).value.s in old(users) ==>
                var id := New(accountId).value;
                if registrationOnly == Some(true) then users == old(users) && r.value.1 == amount
                else r.value.1 == 0
                     && users == old(users)[id.s := old(users)[id.s].(storageBalance :=
                                                      SatAdd(old(users)[id.s].storageBalance, amount))]
      ensures New(accountId).Ok? && New(accountId).value.s in old(users) ==> r.Ok?
      ensures New(accountId).Ok? && New(accountId).value.s !in old(users) ==>
                var id := New(accountId).value;
                var created := NewAccount(id, amount, registrationOnly == Some(true), byteCost, now);
                var span := SpanBytes(usageBefore, usageAfter);
                var stored := if created.Ok? then ApplyUsage(created.value.0, span.bytesAdded, span.bytesReleased, byteCost)
                              else Err("");
                && (r.Ok? <==> created.Ok? && stored.Ok?)
                && (r.Ok? ==> users == old(users)[id.s := stored.value] && r.value.1 == created.value.1)
    {
      var parsed := New(accountId);
      if parsed.Err? {
        return Err(parsed.msg);
      }
      var id := parsed.value;
      var regOnly := if registrationOnly.Some? then registrationOnly.value else false;
      var refund: u128 := 0;
      if id.s in users {
        if regOnly {
          refund := amount;
        } else {
          var ok := InternalDepositStorage(id, amount);
        }
      } else {
        var created := InternalCreateAccount(id, amount, regOnly, byteCost, now, usageBefore, usageAfter);
        if created.Err? {
          return Err(created.msg);
        }
        refund := created.value;
      }
      var balance := InternalStorageBalanceOf(id, byteCost);
      r := Ok((balance.value, refund));
    }

    /** `storage_withdraw` (storage.rs:159-175): with exactly one yocto
        attached, a registered caller asking for nothing gets its balance;
        asking for any positive amount aborts, so nothing is ever paid out. */
    function StorageWithdraw(predecessor: string, attached: nat, amount: Option<u128>, byteCost: u128)
      : (r: Result<StorageBalance>)
      reads this
      ensures r.Ok? <==> attached == 1 && New(predecessor).Ok? && New(predecessor).value.s in users
                         && (amount.Some? ==> amount.value == 0)
      ensures r.Ok? ==> r.value == BalanceOf(users[New(predecessor).value.s], byteCost)
      ensures attached == 1 && New(predecessor).Err? ==> r == Err(New(predecessor).msg)
      ensures (attached == 1 && New(predecessor).Ok? && New(predecessor).value.s in users
               && amount.Some? && amount.value > 0) ==> r == Err(ERR_WITHDRAW_TOO_MUCH)
    {
      if AssertOneYocto(attached).Fail? then Err(AssertOneYocto(attached).msg)
      else match New(predecessor)
        case Err(msg) => Err(msg)
        case Ok(caller) =>
          match InternalStorageBalanceOf(caller, byteCost)
          case None => Err("The account " + caller.s + " is not registered")
          case Some(balance) =>
            if amount.Some? && amount.value > 0 then Err(ERR_WITHDRAW_TOO_MUCH) else Ok(balance)
    }

    /** `storage_unregister` (storage.rs:177-181): never allowed. */
    static function StorageUnregister(force: Option<bool>): (r: Result<bool>)
      ensures r.Err? && r.msg == "The account can't be unregistered"
    {
      Err("The account can't be unregistered")
    }

    /** `update_account` (lib.rs:188-243) as evidently intended: applies
        the supplied profile fields and roles to an existing account,
        stores it between a tracker start and stop, and charges the bytes
        measured. */
    method UpdateAccount(predecessor: string, id: Id, email: Option<string>, name: Option<string>,
                         bio: Option<string>, avatar: Option<string>, cover: Option<string>,
                         roles: Option<seq<string>>, byteCost: u128, usageBefore: nat, usageAfter: nat)
      returns (r: Outcome)
      requires Valid()
      modifies this`users
      ensures Valid()
      ensures var updated := old(UpdatedUser(predecessor, id, email, name, bio, avatar, cover, roles));
              var span := SpanBytes(usageBefore, usageAfter);
              var stored := if updated.Ok? then ApplyUsage(updated.value, span.bytesAdded, span.bytesReleased, byteCost)
                            else Err("");
              && (r.Pass? <==> updated.Ok? && stored.Ok?)
              && (r.Pass? ==> users == old(users)[id.s := stored.value])
              && (r.Fail? ==> users == old(users))
    {
      var updated := UpdatedUser(predecessor, id, email, name, bio, avatar, cover, roles);
      if updated.Err? {
        return Fail(updated.msg);
      }
      var user := updated.value;
      var savedUsers := users;
      var tracker := new StorageTracker();
      var ok := tracker.Start(usageBefore);
      users := users[id.s := user];
      ok := tracker.Stop(usageAfter);
      assert StorageHistory(tracker.bytesAdded, tracker.bytesReleased) == SpanBytes(usageBefore, usageAfter);
      var saved := InternalSetAccount(id, user, tracker, byteCost);
      if saved.Err? {
        users := savedUsers;
        return Fail(saved.msg);
      }
      r := Pass;
    }

    /** `update_account` as written: as in account creation, the clone
        stored at lib.rs:240 carries the open span, the insert in
        `internal_set_account` hands it back and its `Drop` guard aborts.
        So the call fails wherever the intended one succeeds. */
    method UpdateAccountAsWritten(predecessor: string, id: Id, email: Option<string>, name: Option<string>,
                                  bio: Option<string>, avatar: Option<string>, cover: Option<string>,
                                  roles: Option<seq<string>>, byteCost: u128, usageBefore: nat, usageAfter: nat)
      returns (r: Outcome)
      requires Valid()
      modifies this`users
      ensures Valid()
      ensures r.Fail? && users == old(users)
      ensures var updated := old(UpdatedUser(predecessor, id, email, name, bio, avatar, cover, roles));
              var span := SpanBytes(usageBefore, usageAfter);
              var stored := if updated.Ok? then ApplyUsage(updated.value, span.bytesAdded, span.bytesReleased, byteCost)
                            else Err("");
              updated.Ok? && stored.Ok? ==> r.msg == ERR_UNTRACKED
    {
      var updated := UpdatedUser(predecessor, id, email, name, bio, avatar, cover, roles);
      if updated.Err? {
        return Fail(updated.msg);
      }
      var user := updated.value;
      var savedUsers := users;
      var tracker := new StorageTracker();
      var ok := tracker.Start(usageBefore);
      // `user.clone()` copies the open span into the stored value
      var storedCopy := tracker.Clone();
      users := users[id.s := user];
      ok := tracker.Stop(usageAfter);
      assert StorageHistory(tracker.bytesAdded, tracker.bytesReleased) == SpanBytes(usageBefore, usageAfter);
      var saved := InternalSetAccount(id, user, tracker, byteCost);
      users := savedUsers;
      if saved.Err? {
        return Fail(saved.msg);
      }
      var dropped := storedCopy.Drop();
      r := Fail(dropped.msg);
    }

    /** `staging_duration` (update.rs:11-13) */
    function StagingDuration(): (d: nat)
      reads this
      ensures d == stagingDuration
    {
      stagingDuration
    }

    /** `stage` (update.rs:15-24): the owner stages code for a timestamp
        later than the current time plus the staging duration. */
    method Stage(predecessor: string, code: seq<u8>, timestamp: nat, now: nat) returns (r: Outcome)
      modifies this`upgrade, this`stagingTimestamp
      ensures r.Pass? <==> AssertOwner(predecessor).Pass? && now + stagingDuration < timestamp
      ensures r.Pass? ==> upgrade == Some(code) && stagingTimestamp == timestamp
      ensures r.Fail? ==> upgrade == old(upgrade) && stagingTimestamp == old(stagingTimestamp)
    {
      r := AssertOwner(predecessor);
      if r.Fail? {
        return;
      }
      if !(now + stagingDuration < timestamp) {
        return Fail("Timestamp must be later than staging duration");
      }
      upgrade := Some(code);
      stagingTimestamp := timestamp;
    }

    /** `deploy` (update.rs:27-51) as written: it aborts as "too early"
        when the staging timestamp is already past, so staged code is
        deployed (and its key removed) only while `now` has not passed the
        staging timestamp. */
    method Deploy(predecessor: string, now: nat) returns (r: Result<seq<u8>>)
      modifies this`upgrade
      ensures r.Ok? <==> AssertOwner(predecessor).Pass? && now <= stagingTimestamp && old(upgrade).Some?
      ensures r.Ok? ==> r.value == old(upgrade).value && upgrade.None?
      ensures r.Err? ==> upgrade == old(upgrade)
      ensures AssertOwner(predecessor).Pass? && stagingTimestamp < now ==>
                r == Err("Deploy code too early: staging ends on " + Decimal.Show(stagingTimestamp + stagingDuration))
    {
      var gate := AssertOwner(predecessor);
      if gate.Fail? {
        return Err(gate.msg);
      }
      if stagingTimestamp < now {
        return Err("Deploy code too early: staging ends on " + Decimal.Show(stagingTimestamp + stagingDuration));
      }
      if upgrade.None? {
        return Err("No upgrade code available");
      }
      r := Ok(upgrade.value);
      upgrade := None;
    }

    /** `deploy` with the time gate the message describes: staged code can
        be deployed once the staging timestamp has been reached. */
    method DeployAfterStaging(predecessor: string, now: nat) returns (r: Result<seq<u8>>)
      modifies this`upgrade
      ensures r.Ok? <==> AssertOwner(predecessor).Pass? && stagingTimestamp <= now && old(upgrade).Some?
      ensures r.Ok? ==> r.value == old(upgrade).value && upgrade.None?
      ensures r.Err? ==> upgrade == old(upgrade)
    {
      var gate := AssertOwner(predecessor);
      if gate.Fail? {
        return Err(gate.msg);
      }
      if now < stagingTimestamp {
        return Err("Deploy code too early: staging ends on " + Decimal.Show(stagingTimestamp + stagingDuration));
      }
      if upgrade.None? {
        return Err("No upgrade code available");
      }
      r := Ok(upgrade.value);
      upgrade := None;
    }

    /** `update` (update.rs:56-72): owner only, and the code must come as
        the call's input. Returns the code to deploy. */
    function Update(predecessor: string, input: Option<seq<u8>>): (r: Result<seq<u8>>)
      reads this
      ensures r.Ok? <==> AssertOwner(predecessor).Pass? && input.Some?
      ensures r.Ok? ==> r.value == input.value
    {
      if AssertOwner(predecessor).Fail? then Err(AssertOwner(predecessor).msg)
      else if input.None? then Err("Error: No input")
      else Ok(input.value)
    }
  }

  /** The `new` entry point (lib.rs:64-79) with its `#[init]` and
      `#[private]` gates: a call from another account, or on a contract
      that already holds state, aborts and creates nothing. */
  method Init(predecessor: string, current: string, stateExists: bool, ownerId: Id, stagingDuration: nat)
    returns (r: Result<ArtSpot>)
    ensures r.Ok? <==> predecessor == current && !stateExists
    ensures r.Err? ==> r.msg == AssertInit(predecessor, current, stateExists).msg
    ensures r.Ok? ==> fresh(r.value) && r.value.Valid()
    ensures r.Ok? ==> r.value.owner == ownerId && r.value.allowlist == [ownerId]
    ensures r.Ok? ==> r.value.users == map[] && r.value.upgrade.None? && r.value.stagingTimestamp == 0
  {
    var gate := AssertInit(predecessor, current, stateExists);
    if gate.Fail? {
      return Err(gate.msg);
    }
    var c := new ArtSpot(ownerId, stagingDuration);
    r := Ok(c);
  }

  /** The deploy gate is inverted: code staged for time 100 cannot be
      deployed at time 200, after staging ended, but can be deployed at
      time 50, before it ended. The intended gate does the opposite. */
  method DeployGateScenario(owner: string)
    requires New(owner).Ok?
  {
    var c := new ArtSpot(New(owner).value, 10);
    var ok := c.Stage(owner, [1, 2, 3], 100, 0);
    assert ok.Pass?;
    var late := c.Deploy(owner, 200);
    assert late.Err?;
    var early := c.Deploy(owner, 50);
    assert early == Ok([1, 2, 3]);

    ok := c.Stage(owner, [4], 100, 0);
    var intended := c.DeployAfterStaging(owner, 50);
    assert intended.Err?;
    intended := c.DeployAfterStaging(owner, 200);
    assert intended == Ok([4]);
  }

  /** A caller whose account name `Id::new` refuses, such as any dotted
      NEAR account other than an art-spot name, fails every caller gate:
      reading the caller aborts before any comparison. */
  lemma DottedCallerRefused(c: ArtSpot, predecessor: string, role: Role)
    requires '.' in predecessor && !EndsWith(predecessor, ARTSPOT_ID)
    ensures c.AssertOwner(predecessor).Fail? && c.AssertRole(predecessor, role).Fail?
    ensures |c.allowlist| > 0 ==> c.AssertAllowlisted(predecessor) == Fail(New(predecessor).msg)
  {
    NewDottedAborts(predecessor);
  }

  /** An implicit Ethereum account is a valid `Id` without a name, so
      `storage_deposit` can never create an account for it. */
  lemma EthereumAccountNotCreated(input: string, deposit: u128, registrationOnly: bool, byteCost: u128, now: nat)
    requires IsEthImplicit(input)
    ensures New(input) == Ok(Id(input, IdType.Ethereum))
    ensures NewAccount(New(input).value, deposit, registrationOnly, byteCost, now).Err?
  {
    assert IsLowerHex(input[|input| - 1]);
    assert !EndsWith(input, ARTSPOT_ID) && !EndsWith(input, NEAR_ID);
  }

  /** Registering `alice` with one NEAR at the usual byte cost: the
      intended creation stores the account charged for the 300 bytes it
      took, while the creation as written aborts with the tracker guard. */
  method UntrackedCopyScenario()
  {
    var c := new ArtSpot(Id("owner", IdType.ArtSpot), 0);
    var alice := Id("alice", IdType.ArtSpot);
    var asWritten := c.InternalCreateAccountAsWritten(alice, 1_000_000_000_000_000_000_000_000, false,
                                                      10_000_000_000_000_000_000, 0, 100, 400);
    assert asWritten == Err(ERR_UNTRACKED) && c.users == map[];
    var intended := c.InternalCreateAccount(alice, 1_000_000_000_000_000_000_000_000, false,
                                            10_000_000_000_000_000_000, 0, 100, 400);
    assert intended == Ok(0) && c.users["alice"].usedBytes == 300;
  }
}
