/** The user record of the `art-spot` contract and its roles. Its id is
    the `Id` of the shared `as-sdk` crate, which the contract imports. */
module Users {
  import opened Wrappers
  import opened Uint
  import opened IdSdk

  datatype Role = Admin | Contract | Moderator | Developer | Artist | Collector

  /** `Role::to_string` (user.rs:19-28) */
  function RoleName(r: Role): string
  {
    match r
    case Admin => "Admin"
    case Contract => "Contract"
    case Moderator => "Moderator"
    case Developer => "Developer"
    case Artist => "Artist"
    case Collector => "Collector"
  }

  /** `Role::from(&str)` and `Role::from(String)` (user.rs:31-49): one of
      the six names, or an abort. */
  function RoleFromStr(s: string): (r: Result<Role>)
    ensures r.Err? ==> r.msg == "Invalid role"
  {
    match s
    case "Admin" => Ok(Admin)
    case "Moderator" => Ok(Moderator)
    case "Contract" => Ok(Contract)
    case "Developer" => Ok(Developer)
    case "Artist" => Ok(Artist)
    case "Collector" => Ok(Collector)
    case _ => Err("Invalid role")
  }

  /** Names and roles correspond one to one: every role's name reads back
      as the role, and every name that reads as a role is that role's
      name. */
  lemma RoleNameRoundTrip(r: Role, s: string)
    ensures RoleFromStr(RoleName(r)) == Ok(r)
    ensures RoleFromStr(s).Ok? ==> RoleName(RoleFromStr(s).value) == s
  {
  }

  /** `u8::from(Role)` (user.rs:57-68) */
  function RoleCode(r: Role): (b: u8)
    ensures b <= 5
  {
    match r
    case Admin => 0
    case Moderator => 1
    case Developer => 2
    case Artist => 3
    case Collector => 4
    case Contract => 5
  }

  /** `Role::from(u8)` (user.rs:70-82) */
  function RoleFromCode(b: u8): (r: Result<Role>)
    ensures r.Ok? <==> b <= 5
    ensures r.Err? ==> r.msg == "Invalid role"
  {
    match b
    case 0 => Ok(Admin)
    case 1 => Ok(Moderator)
    case 2 => Ok(Developer)
    case 3 => Ok(Artist)
    case 4 => Ok(Collector)
    case 5 => Ok(Contract)
    case _ => Err("Invalid role")
  }

  /** The codes 0..=5 and the roles correspond one to one. */
  lemma RoleCodeRoundTrip(r: Role, b: u8)
    ensures RoleFromCode(RoleCode(r)) == Ok(r)
    ensures b <= 5 ==> RoleCode(RoleFromCode(b).value) == b
  {
  }

  datatype User = User(
    storageBalance: u128,
    usedBytes: nat,
    id: Id,
    email: string,
    name: string,
    bio: Option<string>,
    avatar: Option<string>,
    cover: Option<string>,
    createdAt: nat,
    updatedAt: nat,
    roles: seq<Role>,
    verified: bool)

  /** `User::new` (user.rs:105-121): no balance, no bytes, the Artist role,
      unverified, both timestamps the current block's. The tracker the
      source embeds starts empty and is a separate object here. */
  function NewUser(id: Id, email: string, name: string, blockTimestamp: nat): (u: User)
    ensures u.storageBalance == 0 && u.usedBytes == 0
    ensures u.id == id && u.email == email && u.name == name
    ensures u.bio.None? && u.avatar.None? && u.cover.None?
    ensures u.createdAt == blockTimestamp && u.updatedAt == blockTimestamp
    ensures u.roles == [Artist] && !u.verified
  {
    User(0, 0, id, email, name, None, None, None, blockTimestamp, blockTimestamp, [Artist], false)
  }

  /** `User::assert_storage_covered` (user.rs:123-130): the rent for the
      used bytes, a saturating product, must not exceed the balance. So
      the check passes exactly when the real product fits the balance, or
      the balance is the largest u128. */
  function AssertStorageCovered(user: User, byteCost: u128): (r: Outcome)
    ensures r.Pass? <==> byteCost * user.usedBytes <= user.storageBalance
                         || user.storageBalance == U128_MAX
    ensures r.Fail? ==> r.msg == "Not enough storage balance"
  {
    if SatMul(byteCost, user.usedBytes) <= user.storageBalance then Pass
    else Fail("Not enough storage balance")
  }

  /** A fresh user is covered at any byte cost. */
  lemma NewUserCovered(id: Id, email: string, name: string, now: nat, byteCost: u128)
    ensures AssertStorageCovered(NewUser(id, email, name, now), byteCost).Pass?
  {
  }

  /** Coverage is monotone: fewer bytes or more balance stay covered. */
  lemma CoverageMonotone(user: User, byteCost: u128, usedBytes: nat, storageBalance: u128)
    requires AssertStorageCovered(user, byteCost).Pass?
    requires usedBytes <= user.usedBytes && storageBalance >= user.storageBalance
    ensures AssertStorageCovered(user.(usedBytes := usedBytes, storageBalance := storageBalance), byteCost).Pass?
  {
    if storageBalance < U128_MAX {
      assert byteCost * usedBytes <= byteCost * user.usedBytes by {
        MulMonotone(byteCost, usedBytes, user.usedBytes);
      }
    }
  }

  lemma MulMonotone(a: nat, b: nat, c: nat)
    requires b <= c
    ensures a * b <= a * c
  {
  }
}
