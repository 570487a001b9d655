/** The fungible-token value ledger of `spot-token` (NEP-141): balances,
    total supply, the minters list and the settlement of a transfer-call.

    The contract state is a class whose methods change it in place.
    A panic aborts the receipt and reverts every write made by it, so a
    failing method returns `Fail`/`Err` with the panic message and leaves
    the state as it found it. Host inputs (the predecessor account, the
    attached deposit, the prepaid gas, the result of the receiver's
    `ft_on_transfer`) are parameters. */
module SpotToken {
  import opened Wrappers
  import opened Uint
  import opened NearHost

  type AccountId = string

  const ERR_TOTAL_SUPPLY_OVERFLOW := "Total supply overflow"
  const ERR_NOT_ENOUGH_BALANCE := "The account doesn't have enough balance"

  const TGAS: nat := 1_000_000_000_000
  const GAS_FOR_RESOLVE_TRANSFER: nat := 5 * TGAS
  const GAS_FOR_FT_TRANSFER_CALL: nat := 30 * TGAS

  /** Events of the NEP-297 log format, kept abstract. */
  datatype Event =
    | FtMint(owner: AccountId, amount: u128, memo: Option<string>)
    | FtTransfer(oldOwner: AccountId, newOwner: AccountId, amount: u128, memo: Option<string>)
    | FtBurn(owner: AccountId, amount: u128, memo: Option<string>)
    | SenderDeleted                           // "The account of the sender was deleted"
    | Burned(account: AccountId, amount: u128) // "Account @{} burned {}"

  /** What `env::promise_result(0)` delivers to the resolve step: the
      receiver's JSON answer already parsed as a `U128` (None when it is
      not one), or a failure of the receiver's call. */
  datatype PromiseResult = Successful(parsed: Option<u128>) | Failed

  /** `(used_amount, burned_amount)` of the resolve step. */
  datatype Resolution = Resolution(used: u128, burned: u128)

  /** The outbound `ft_on_transfer` call that `ft_transfer_call` schedules,
      followed by `ft_resolve_transfer(sender, receiver, amount)`. */
  datatype PendingTransfer = PendingTransfer(
    sender: AccountId, receiver: AccountId, amount: u128, msg: string, receiverGas: nat)

  /** Sum of all balances of a ledger. */
  ghost function Sum(m: map<AccountId, u128>): int
    decreases |m|
  {
    if m == map[] then 0
    else
      var k :| k in m;
      assert (m - {k}).Keys == m.Keys - {k};
      m[k] + Sum(m - {k})
  }

  /** Any entry can be taken out of the sum, whichever one `Sum` picked. */
  lemma {:induction false} SumRemove(m: map<AccountId, u128>, k: AccountId)
    requires k in m
    ensures Sum(m) == m[k] + Sum(m - {k})
    decreases |m|
  {
    var j :| j in m && Sum(m) == m[j] + Sum(m - {j});
    if j != k {
      assert (m - {j}).Keys == m.Keys - {j};
      assert (m - {k}).Keys == m.Keys - {k};
      SumRemove(m - {j}, k);
      SumRemove(m - {k}, j);
      assert m - {j} - {k} == m - {k} - {j};
    }
  }

  /** The sum of balances is never negative. */
  lemma {:induction false} SumNonNegative(m: map<AccountId, u128>)
    ensures Sum(m) >= 0
    decreases |m|
  {
    if m != map[] {
      var k :| k in m;
      SumRemove(m, k);
      assert (m - {k}).Keys == m.Keys - {k};
      SumNonNegative(m - {k});
    }
  }

  /** Writing one balance changes the sum by the difference. */
  lemma SumUpdate(m: map<AccountId, u128>, k: AccountId, v: u128)
    ensures Sum(m[k := v]) == Sum(m) - (if k in m then m[k] else 0) + v
  {
    SumRemove(m[k := v], k);
    assert m[k := v] - {k} == m - {k};
    if k in m {
      SumRemove(m, k);
    } else {
      assert m - {k} == m;
    }
  }

  /** Two different accounts together hold at most the sum of all balances. */
  lemma SumPair(m: map<AccountId, u128>, a: AccountId, b: AccountId)
    requires a in m && b in m && a != b
    ensures m[a] + m[b] <= Sum(m)
  {
    SumRemove(m, a);
    SumRemove(m - {a}, b);
    SumNonNegative(m - {a} - {b});
  }

  /** One account holds at most the sum of all balances. */
  lemma SumSingle(m: map<AccountId, u128>, a: AccountId)
    requires a in m
    ensures m[a] <= Sum(m)
  {
    SumRemove(m, a);
    SumNonNegative(m - {a});
  }

  /** The amount the receiver reports as unused (internal.rs:137-146):
      a parseable answer is capped by the amount, anything else counts
      as the whole amount. */
  function UnusedAmount(amount: u128, result: PromiseResult): (unused: u128)
    ensures unused <= amount
    ensures result.Successful? && result.parsed.Some? ==>
              unused == if result.parsed.value < amount then result.parsed.value else amount
    ensures !(result.Successful? && result.parsed.Some?) ==> unused == amount
  {
    match result
    case Successful(parsed) =>
      if parsed.Some? then Min(amount, parsed.value) else amount
    case Failed => amount
  }

  /** First index of `x` in `s` (`iter().position`). */
  function Position(s: seq<AccountId>, x: AccountId): (r: Option<nat>)
    ensures r.None? <==> x !in s
    ensures r.Some? ==> r.value < |s| && s[r.value] == x && x !in s[..r.value]
  {
    if s == [] then None
    else if s[0] == x then Some(0)
    else
      var p := Position(s[1..], x);
      assert s[1..] == s[1..][..];
      if p.None? then None
      else
        assert s[..p.value + 1] == [s[0]] + s[1..][..p.value];
        Some(p.value + 1)
  }

  /** `Vec::swap_remove(i)`: the last element takes the place of the removed one. */
  function SwapRemove(s: seq<AccountId>, i: nat): (r: seq<AccountId>)
    requires i < |s|
    ensures |r| == |s| - 1
    ensures i < |r| ==> r[i] == s[|s| - 1]
    ensures forall j :: 0 <= j < |r| && j != i ==> r[j] == s[j]
    ensures multiset(r) == multiset(s) - multiset{s[i]}
  {
    var last := |s| - 1;
    if i == last then
      DropLastMultiset(s);
      s[..last]
    else
      var r := s[..i] + [s[last]] + s[i + 1..last];
      SwapRemoveIndices(s, i, r);
      SwapRemoveMultiset(s, i, r);
      r
  }

  lemma DropLastMultiset(s: seq<AccountId>)
    requires |s| > 0
    ensures multiset(s[..|s| - 1]) == multiset(s) - multiset{s[|s| - 1]}
  {
    assert s == s[..|s| - 1] + [s[|s| - 1]];
  }

  lemma SwapRemoveIndices(s: seq<AccountId>, i: nat, r: seq<AccountId>)
    requires i < |s| - 1
    requires r == s[..i] + [s[|s| - 1]] + s[i + 1..|s| - 1]
    ensures |r| == |s| - 1 && r[i] == s[|s| - 1]
    ensures forall j :: 0 <= j < |r| && j != i ==> r[j] == s[j]
  {
    forall j | 0 <= j < |r| && j != i
      ensures r[j] == s[j]
    {
      if j < i {
        assert r[j] == s[..i][j];
      } else {
        assert r[j] == s[i + 1..|s| - 1][j - i - 1];
      }
    }
  }

  lemma SwapRemoveMultiset(s: seq<AccountId>, i: nat, r: seq<AccountId>)
    requires i < |s| - 1
    requires r == s[..i] + [s[|s| - 1]] + s[i + 1..|s| - 1]
    ensures multiset(r) == multiset(s) - multiset{s[i]}
  {
    var last := |s| - 1;
    var a, x, b, y := s[..i], s[i], s[i + 1..last], s[last];
    assert s == (a + [x]) + (b + [y]);
    assert multiset(s) == multiset(a) + multiset{x} + multiset(b) + multiset{y};
    assert r == (a + [y]) + b;
    assert multiset(r) == multiset(a) + multiset{y} + multiset(b);
  }

  /** What the resolve step leaves behind: the new ledger, the
      `(used, burned)` pair and the events it emits. */
  datatype Settled = Settled(accounts: map<AccountId, u128>, totalSupply: u128,
                             resolution: Resolution, emitted: seq<Event>)

  /** The reconciliation of a transfer-call (internal.rs:128-194), on a
      conserved ledger. The balances are read afresh: the receiver may
      have spent part of what it received, and the sender may have been
      deregistered meanwhile. The result is again conserved, the used
      amount never exceeds the amount and the burned amount never
      exceeds the unused one. */
  function Settle(accounts: map<AccountId, u128>, totalSupply: u128, senderId: AccountId,
                  receiverId: AccountId, amount: u128, result: PromiseResult): (s: Settled)
    requires Sum(accounts) == totalSupply
    ensures Sum(s.accounts) == s.totalSupply
    ensures s.resolution.used <= amount
    ensures s.resolution.burned <= UnusedAmount(amount, result)
    ensures s.totalSupply + s.resolution.burned == totalSupply
  {
    var unused := UnusedAmount(amount, result);
    var receiverBalance := if receiverId in accounts then accounts[receiverId] else 0;
    if unused == 0 || receiverBalance == 0 then
      Settled(accounts, totalSupply, Resolution(amount, 0), [])
    else
      var refund := Min(receiverBalance, unused);
      SumSingle(accounts, receiverId);
      SumUpdate(accounts, receiverId, receiverBalance - refund);
      var debited := accounts[receiverId := receiverBalance - refund];
      if senderId in debited then
        SumSingle(debited, senderId);
        SumUpdate(debited, senderId, debited[senderId] + refund);
        Settled(debited[senderId := debited[senderId] + refund], totalSupply,
                Resolution(amount - refund, 0),
                [Event.FtTransfer(receiverId, senderId, refund, Some("refund"))])
      else
        Settled(debited, totalSupply - refund, Resolution(amount, refund),
                [SenderDeleted, FtBurn(receiverId, refund, Some("refund"))])
  }

  /** Balance lookup with 0 for an unregistered account. */
  function BalanceOf(accounts: map<AccountId, u128>, a: AccountId): nat
  {
    if a in accounts then accounts[a] else 0
  }

  /** Nothing to claw back: no unused amount, or nothing left at the receiver. */
  lemma SettleNothingUnused(accounts: map<AccountId, u128>, totalSupply: u128, senderId: AccountId,
                            receiverId: AccountId, amount: u128, result: PromiseResult)
    requires Sum(accounts) == totalSupply
    requires UnusedAmount(amount, result) == 0 || BalanceOf(accounts, receiverId) == 0
    ensures Settle(accounts, totalSupply, senderId, receiverId, amount, result)
            == Settled(accounts, totalSupply, Resolution(amount, 0), [])
  {
  }

  /** The sender still exists: `refund = min(receiver balance, unused)`
      moves back from the receiver to the sender, no other balance
      changes, and the used amount is `amount - refund`. Sender and
      receiver differ in every settlement: the transfer that precedes it
      refuses a self-transfer (internal.rs:106, `InternalTransfer`). */
  lemma SettleRefund(accounts: map<AccountId, u128>, totalSupply: u128, senderId: AccountId,
                     receiverId: AccountId, amount: u128, result: PromiseResult)
    requires Sum(accounts) == totalSupply
    requires senderId in accounts && senderId != receiverId
    ensures
      var refund := Min(BalanceOf(accounts, receiverId), UnusedAmount(amount, result));
      var s := Settle(accounts, totalSupply, senderId, receiverId, amount, result);
      && s.totalSupply == totalSupply
      && s.resolution == Resolution(amount - refund, 0)
      && BalanceOf(s.accounts, senderId) == accounts[senderId] + refund
      && BalanceOf(s.accounts, receiverId) == BalanceOf(accounts, receiverId) - refund
      && (forall a :: a != senderId && a != receiverId ==> BalanceOf(s.accounts, a) == BalanceOf(accounts, a))
      && s.accounts.Keys == accounts.Keys
  {
    var unused := UnusedAmount(amount, result);
    var receiverBalance := BalanceOf(accounts, receiverId);
    if unused != 0 && receiverBalance != 0 {
      var refund := Min(receiverBalance, unused);
      var s := Settle(accounts, totalSupply, senderId, receiverId, amount, result);
      RefundedAccounts(accounts, totalSupply, senderId, receiverId, amount, result);
      MovedBalances(accounts, receiverId, senderId, refund, s.accounts);
    } else {
      SettleNothingUnused(accounts, totalSupply, senderId, receiverId, amount, result);
    }
  }

  /** The ledger after a refund to a registered sender. */
  lemma RefundedAccounts(accounts: map<AccountId, u128>, totalSupply: u128, senderId: AccountId,
                         receiverId: AccountId, amount: u128, result: PromiseResult)
    requires Sum(accounts) == totalSupply
    requires senderId in accounts && senderId != receiverId
    requires UnusedAmount(amount, result) != 0 && BalanceOf(accounts, receiverId) != 0
    ensures
      var refund := Min(accounts[receiverId], UnusedAmount(amount, result));
      var s := Settle(accounts, totalSupply, senderId, receiverId, amount, result);
      && accounts[senderId] + refund < U128_LIMIT
      && s.accounts == accounts[receiverId := accounts[receiverId] - refund][senderId := accounts[senderId] + refund]
      && s.totalSupply == totalSupply && s.resolution == Resolution(amount - refund, 0)
  {
    var refund := Min(accounts[receiverId], UnusedAmount(amount, result));
    var debited := accounts[receiverId := accounts[receiverId] - refund];
    SumUpdate(accounts, receiverId, accounts[receiverId] - refund);
    SumSingle(debited, senderId);
    assert debited[senderId] == accounts[senderId];
  }

  /** Moving `k` from one registered account to another changes those
      two balances only. */
  lemma MovedBalances(m: map<AccountId, u128>, from: AccountId, to: AccountId, k: nat,
                      out: map<AccountId, u128>)
    requires from in m && to in m && from != to && k <= m[from] && m[to] + k < U128_LIMIT
    requires out == m[from := m[from] - k][to := m[to] + k]
    ensures BalanceOf(out, to) == m[to] + k && BalanceOf(out, from) == m[from] - k
    ensures forall a :: a != from && a != to ==> BalanceOf(out, a) == BalanceOf(m, a)
    ensures out.Keys == m.Keys
  {
  }

  /** The sender was deregistered while the call was in flight: the
      receiver loses `refund`, nobody is credited, the supply drops by
      `refund`, and the whole amount is reported as used. */
  lemma SettleBurn(accounts: map<AccountId, u128>, totalSupply: u128, senderId: AccountId,
                   receiverId: AccountId, amount: u128, result: PromiseResult)
    requires Sum(accounts) == totalSupply
    requires senderId !in accounts
    ensures
      var refund := Min(BalanceOf(accounts, receiverId), UnusedAmount(amount, result));
      var s := Settle(accounts, totalSupply, senderId, receiverId, amount, result);
      && s.totalSupply == totalSupply - refund
      && s.resolution == Resolution(amount, refund)
      && BalanceOf(s.accounts, receiverId) == BalanceOf(accounts, receiverId) - refund
      && (forall a :: a != receiverId ==> BalanceOf(s.accounts, a) == BalanceOf(accounts, a))
      && senderId !in s.accounts
  {
  }

  class Token {
    var accounts: map<AccountId, u128>
    var ownerId: AccountId
    var minters: seq<AccountId>
    var totalSupply: u128
    /** Bytes of one account entry, measured by the host at initialisation. */
    var accountStorageUsage: nat
    var events: seq<Event>

    /** Conservation: the total supply is the sum of all balances. */
    ghost predicate Valid()
      reads this
    {
      Sum(accounts) == totalSupply
    }

    /** `new` (lib.rs:85-125): the owner is registered and receives the
        whole initial supply, and is the only minter. The host-measured
        size of an account entry is a parameter. This is the state once
        the gates of `NearHost.AssertInit` have passed. */
    constructor (owner: AccountId, initialSupply: u128, measuredAccountUsage: nat)
      ensures Valid()
      ensures totalSupply == initialSupply
      ensures accounts == map[owner := initialSupply]
      ensures ownerId == owner && minters == [owner]
      ensures accountStorageUsage == measuredAccountUsage
      ensures events == [FtMint(owner, initialSupply, Some("Initial token supply is minted"))]
    {
      accounts := map[];
      ownerId := owner;
      minters := [owner];
      totalSupply := 0;
      accountStorageUsage := measuredAccountUsage;
      events := [];
      new;
      assert Sum(map[]) == 0;
      var r := InternalRegisterAccount(owner);
      assert r.Pass?;
      r := InternalDeposit(owner, initialSupply);
      assert r.Pass?;
      events := events + [FtMint(owner, initialSupply, Some("Initial token supply is minted"))];
    }

    /** `assert_owner` (internal.rs:22-27). */
    function AssertOwner(caller: AccountId): (r: Outcome)
      reads this
      ensures r.Pass? <==> caller == ownerId
    {
      if caller == ownerId then Pass else Fail("can only be called by the owner")
    }

    /** `assert_minter` (internal.rs:29-31). */
    function AssertMinter(caller: AccountId): (r: Outcome)
      reads this
      ensures r.Pass? <==> caller in minters
    {
      if caller in minters then Pass else Fail("not a minter")
    }

    /** `internal_unwrap_balance_of` (internal.rs:64-71). */
    function InternalUnwrapBalanceOf(accountId: AccountId): (r: Result<u128>)
      reads this
      ensures r.Ok? <==> accountId in accounts
      ensures r.Ok? ==> r.value == accounts[accountId]
    {
      if accountId in accounts then Ok(accounts[accountId])
      else Err("The account " + accountId + " is not registered")
    }

    /** `internal_deposit` (internal.rs:73-84): credits the balance and the supply. */
    method InternalDeposit(accountId: AccountId, amount: u128) returns (r: Outcome)
      requires Valid()
      modifies this`accounts, this`totalSupply
      ensures Valid()
      ensures r.Pass? <==> accountId in old(accounts)
                           && old(accounts[accountId]) + amount <= U128_MAX
                           && old(totalSupply) + amount <= U128_MAX
      ensures r.Pass? ==> accounts == old(accounts)[accountId := old(accounts[accountId]) + amount]
                          && totalSupply == old(totalSupply) + amount
      ensures r.Fail? ==> accounts == old(accounts) && totalSupply == old(totalSupply)
    {
      var balance := InternalUnwrapBalanceOf(accountId);
      if balance.Err? {
        return Fail(balance.msg);
      }
      var newBalance := CheckedAdd(balance.value, amount);
      if newBalance.None? {
        return Fail("Balance overflow");
      }
      var newSupply := CheckedAdd(totalSupply, amount);
      if newSupply.None? {
        return Fail(ERR_TOTAL_SUPPLY_OVERFLOW);
      }
      SumUpdate(accounts, accountId, newBalance.value);
      accounts := accounts[accountId := newBalance.value];
      totalSupply := newSupply.value;
      r := Pass;
    }

    /** `mint_into` (internal.rs:33-44) has the same body as `internal_deposit`. */
    method MintInto(accountId: AccountId, amount: u128) returns (r: Outcome)
      requires Valid()
      modifies this`accounts, this`totalSupply
      ensures Valid()
      ensures r.Pass? <==> accountId in old(accounts)
                           && old(accounts[accountId]) + amount <= U128_MAX
                           && old(totalSupply) + amount <= U128_MAX
      ensures r.Pass? ==> accounts == old(accounts)[accountId := old(accounts[accountId]) + amount]
                          && totalSupply == old(totalSupply) + amount
      ensures r.Fail? ==> accounts == old(accounts) && totalSupply == old(totalSupply)
    {
      r := InternalDeposit(accountId, amount);
    }

    /** `internal_withdraw` (internal.rs:86-97): debits the balance and the supply. */
    method InternalWithdraw(accountId: AccountId, amount: u128) returns (r: Outcome)
      requires Valid()
      modifies this`accounts, this`totalSupply
      ensures Valid()
      ensures r.Pass? <==> accountId in old(accounts) && amount <= old(accounts[accountId])
      ensures accountId in old(accounts) && amount > old(accounts[accountId]) ==>
                r == Fail(ERR_NOT_ENOUGH_BALANCE)
      ensures r.Pass? ==> accounts == old(accounts)[accountId := old(accounts[accountId]) - amount]
                          && totalSupply == old(totalSupply) - amount
      ensures r.Fail? ==> accounts == old(accounts) && totalSupply == old(totalSupply)
    {
      var balance := InternalUnwrapBalanceOf(accountId);
      if balance.Err? {
        return Fail(balance.msg);
      }
      var newBalance := CheckedSub(balance.value, amount);
      if newBalance.None? {
        return Fail(ERR_NOT_ENOUGH_BALANCE);
      }
      SumSingle(accounts, accountId);
      var newSupply := CheckedSub(totalSupply, amount);
      if newSupply.None? {
        assert false;
        return Fail(ERR_TOTAL_SUPPLY_OVERFLOW);
      }
      SumUpdate(accounts, accountId, newBalance.value);
      accounts := accounts[accountId := newBalance.value];
      totalSupply := newSupply.value;
      r := Pass;
    }

    /** `internal_burn` (internal.rs:46-57) has the same body as `internal_withdraw`. */
    method InternalBurn(accountId: AccountId, amount: u128) returns (r: Outcome)
      requires Valid()
      modifies this`accounts, this`totalSupply
      ensures Valid()
      ensures r.Pass? <==> accountId in old(accounts) && amount <= old(accounts[accountId])
      ensures accountId in old(accounts) && amount > old(accounts[accountId]) ==>
                r == Fail(ERR_NOT_ENOUGH_BALANCE)
      ensures r.Pass? ==> accounts == old(accounts)[accountId := old(accounts[accountId]) - amount]
                          && totalSupply == old(totalSupply) - amount
      ensures r.Fail? ==> accounts == old(accounts) && totalSupply == old(totalSupply)
    {
      r := InternalWithdraw(accountId, amount);
    }

    /** `internal_transfer` (internal.rs:99-117): withdraw from the sender,
        deposit to the receiver; the supply is unchanged overall and the
        receiver's credit can never overflow on a conserved ledger. */
    method InternalTransfer(senderId: AccountId, receiverId: AccountId, amount: u128, memo: Option<string>)
      returns (r: Outcome)
      requires Valid()
      modifies this`accounts, this`totalSupply, this`events
      ensures Valid()
      ensures senderId == receiverId ==> r == Fail("Sender and receiver should be different")
      ensures senderId != receiverId && amount == 0 ==> r == Fail("The amount should be a positive number")
      ensures r.Pass? <==> senderId != receiverId && amount > 0
                           && senderId in old(accounts) && receiverId in old(accounts)
                           && amount <= old(accounts[senderId])
      ensures r.Pass? ==>
                accounts == old(accounts)[senderId := old(accounts[senderId]) - amount]
                                         [receiverId := old(accounts[receiverId]) + amount]
                && totalSupply == old(totalSupply)
                && events == old(events) + [Event.FtTransfer(senderId, receiverId, amount, memo)]
      ensures r.Fail? ==> accounts == old(accounts) && totalSupply == old(totalSupply) && events == old(events)
    {
      if senderId == receiverId {
        return Fail("Sender and receiver should be different");
      }
      if amount == 0 {
        return Fail("The amount should be a positive number");
      }
      if senderId in accounts && receiverId in accounts {
        SumPair(accounts, senderId, receiverId);
      }
      var savedAccounts, savedSupply := accounts, totalSupply;
      r := InternalWithdraw(senderId, amount);
      if r.Fail? {
        return;
      }
      r := InternalDeposit(receiverId, amount);
      if r.Fail? {
        // the panic reverts the withdrawal as well
        accounts, totalSupply := savedAccounts, savedSupply;
        return;
      }
      events := events + [Event.FtTransfer(senderId, receiverId, amount, memo)];
    }

    /** `internal_register_account` (internal.rs:119-123). */
    method InternalRegisterAccount(accountId: AccountId) returns (r: Outcome)
      requires Valid()
      modifies this`accounts
      ensures Valid()
      ensures r.Pass? <==> accountId !in old(accounts)
      ensures r.Pass? ==> accounts == old(accounts)[accountId := 0]
      ensures r.Fail? ==> accounts == old(accounts) && r.msg == "The account is already registered"
    {
      if accountId in accounts {
        return Fail("The account is already registered");
      }
      SumUpdate(accounts, accountId, 0);
      accounts := accounts[accountId := 0];
      r := Pass;
    }

    /** The refund part of `internal_ft_resolve_transfer`
        (internal.rs:150-190): `refund` goes back from the receiver to the
        sender, or is burned when the sender's account is gone. */
    method RefundUnused(senderId: AccountId, receiverId: AccountId, amount: u128, refundAmount: u128)
      returns (r: Result<Resolution>)
      requires Valid()
      requires receiverId in accounts && refundAmount <= accounts[receiverId] && refundAmount <= amount
      modifies this`accounts, this`totalSupply, this`events
      ensures Valid()
      ensures
        var debited := old(accounts)[receiverId := old(accounts[receiverId]) - refundAmount];
        if senderId in debited then
          && r == Ok(Resolution(amount - refundAmount, 0))
          && accounts == debited[senderId := debited[senderId] + refundAmount]
          && totalSupply == old(totalSupply)
          && events == old(events) + [Event.FtTransfer(receiverId, senderId, refundAmount, Some("refund"))]
        else
          && r == Ok(Resolution(amount, refundAmount))
          && accounts == debited
          && totalSupply == old(totalSupply) - refundAmount
          && events == old(events) + [SenderDeleted, FtBurn(receiverId, refundAmount, Some("refund"))]
    {
      var receiverBalance := accounts[receiverId];
      var newReceiverBalance := CheckedSub(receiverBalance, refundAmount);
      if newReceiverBalance.None? {
        assert false;
        return Err("The receiver account doesn't have enough balance");
      }
      SumSingle(accounts, receiverId);
      SumUpdate(accounts, receiverId, newReceiverBalance.value);
      accounts := accounts[receiverId := newReceiverBalance.value];

      if senderId in accounts {
        var senderBalance := accounts[senderId];
        SumSingle(accounts, senderId);
        var newSenderBalance := CheckedAdd(senderBalance, refundAmount);
        if newSenderBalance.None? {
          assert false;
          return Err("Sender balance overflow");
        }
        SumUpdate(accounts, senderId, newSenderBalance.value);
        accounts := accounts[senderId := newSenderBalance.value];
        events := events + [Event.FtTransfer(receiverId, senderId, refundAmount, Some("refund"))];
        var usedAmount := CheckedSub(amount, refundAmount);
        if usedAmount.None? {
          assert false;
          return Err(ERR_TOTAL_SUPPLY_OVERFLOW);
        }
        return Ok(Resolution(usedAmount.value, 0));
      } else {
        // Sender's account was deleted, so the refund is burned.
        var newSupply := CheckedSub(totalSupply, refundAmount);
        if newSupply.None? {
          assert false;
          return Err(ERR_TOTAL_SUPPLY_OVERFLOW);
        }
        totalSupply := newSupply.value;
        events := events + [SenderDeleted, FtBurn(receiverId, refundAmount, Some("refund"))];
        return Ok(Resolution(amount, refundAmount));
      }
    }

    /** `internal_ft_resolve_transfer` (internal.rs:128-194), proved
        against `Settle`; it never aborts on a conserved ledger. */
    method InternalFtResolveTransfer(senderId: AccountId, receiverId: AccountId, amount: u128,
                                     result: PromiseResult)
      returns (r: Result<Resolution>)
      requires Valid()
      modifies this`accounts, this`totalSupply, this`events
      ensures Valid()
      ensures
        var s := Settle(old(accounts), old(totalSupply), senderId, receiverId, amount, result);
        r == Ok(s.resolution) && accounts == s.accounts && totalSupply == s.totalSupply
        && events == old(events) + s.emitted
    {
      var unusedAmount := UnusedAmount(amount, result);
      if unusedAmount > 0 {
        var receiverBalance := if receiverId in accounts then accounts[receiverId] else 0;
        if receiverBalance > 0 {
          var refundAmount := Min(receiverBalance, unusedAmount);
          r := RefundUnused(senderId, receiverId, amount, refundAmount);
          return;
        }
      }
      r := Ok(Resolution(amount, 0));
    }

    /** `mint` (lib.rs:153-164): only a minter, with exactly one yocto attached. */
    method Mint(caller: AccountId, attached: nat, accountId: AccountId, amount: u128, memo: Option<string>)
      returns (r: Outcome)
      requires Valid()
      modifies this`accounts, this`totalSupply, this`events
      ensures Valid()
      ensures r.Pass? <==> attached == 1 && caller in minters && accountId in old(accounts)
                           && old(accounts[accountId]) + amount <= U128_MAX
                           && old(totalSupply) + amount <= U128_MAX
      ensures r.Pass? ==> accounts == old(accounts)[accountId := old(accounts[accountId]) + amount]
                          && totalSupply == old(totalSupply) + amount
                          && events == old(events) + [FtMint(accountId, amount, memo)]
      ensures r.Fail? ==> accounts == old(accounts) && totalSupply == old(totalSupply) && events == old(events)
    {
      r := AssertOneYocto(attached);
      if r.Fail? { return; }
      r := AssertMinter(caller);
      if r.Fail? { return; }
      r := MintInto(accountId, amount);
      if r.Fail? { return; }
      events := events + [FtMint(accountId, amount, memo)];
    }

    /** `burn` (lib.rs:139-151): only the owner, with exactly one yocto attached. */
    method Burn(caller: AccountId, attached: nat, accountId: AccountId, amount: u128, memo: Option<string>)
      returns (r: Outcome)
      requires Valid()
      modifies this`accounts, this`totalSupply, this`events
      ensures Valid()
      ensures r.Pass? <==> attached == 1 && caller == ownerId && accountId in old(accounts)
                           && amount <= old(accounts[accountId])
      ensures r.Pass? ==> accounts == old(accounts)[accountId := old(accounts[accountId]) - amount]
                          && totalSupply == old(totalSupply) - amount
                          && events == old(events) + [FtBurn(accountId, amount, memo)]
      ensures r.Fail? ==> accounts == old(accounts) && totalSupply == old(totalSupply) && events == old(events)
    {
      r := AssertOneYocto(attached);
      if r.Fail? { return; }
      r := AssertOwner(caller);
      if r.Fail? { return; }
      r := InternalBurn(accountId, amount);
      if r.Fail? { return; }
      events := events + [FtBurn(accountId, amount, memo)];
    }

    /** `add_minter` (lib.rs:166-176): owner only; appends an absent account. */
    method AddMinter(caller: AccountId, attached: nat, accountId: AccountId) returns (r: Outcome)
      modifies this`minters
      ensures r.Pass? <==> attached == 1 && caller == ownerId && accountId !in old(minters)
      ensures attached == 1 && caller == ownerId && accountId in old(minters) ==>
                r == Fail("already in the list")
      ensures r.Pass? ==> minters == old(minters) + [accountId]
      ensures r.Fail? ==> minters == old(minters)
    {
      r := AssertOneYocto(attached);
      if r.Fail? { return; }
      r := AssertOwner(caller);
      if r.Fail? { return; }
      if Position(minters, accountId).Some? {
        return Fail("already in the list");
      }
      minters := minters + [accountId];
    }

    /** `remove_minter` (lib.rs:178-189): owner only; swap-removes the first
        occurrence, so the others keep their multiplicity. */
    method RemoveMinter(caller: AccountId, attached: nat, accountId: AccountId) returns (r: Outcome)
      modifies this`minters
      ensures r.Pass? <==> attached == 1 && caller == ownerId && accountId in old(minters)
      ensures attached == 1 && caller == ownerId && accountId !in old(minters) ==>
                r == Fail("not a minter")
      ensures r.Pass? ==>
                var i := Position(old(minters), accountId).value;
                minters == SwapRemove(old(minters), i)
                && multiset(minters) == multiset(old(minters)) - multiset{accountId}
      ensures r.Fail? ==> minters == old(minters)
    {
      r := AssertOneYocto(attached);
      if r.Fail? { return; }
      r := AssertOwner(caller);
      if r.Fail? { return; }
      var inx := Position(minters, accountId);
      if inx.None? {
        return Fail("not a minter");
      }
      minters := SwapRemove(minters, inx.value);
    }

    /** `ft_transfer` (lib.rs:216-222). */
    method FtTransfer(caller: AccountId, attached: nat, receiverId: AccountId, amount: u128, memo: Option<string>)
      returns (r: Outcome)
      requires Valid()
      modifies this`accounts, this`totalSupply, this`events
      ensures Valid()
      ensures r.Pass? <==> attached == 1 && caller != receiverId && amount > 0
                           && caller in old(accounts) && receiverId in old(accounts)
                           && amount <= old(accounts[caller])
      ensures r.Pass? ==>
                accounts == old(accounts)[caller := old(accounts[caller]) - amount]
                                         [receiverId := old(accounts[receiverId]) + amount]
                && totalSupply == old(totalSupply)
                && events == old(events) + [Event.FtTransfer(caller, receiverId, amount, memo)]
      ensures r.Fail? ==> accounts == old(accounts) && totalSupply == old(totalSupply) && events == old(events)
    {
      r := AssertOneYocto(attached);
      if r.Fail? { return; }
      r := InternalTransfer(caller, receiverId, amount, memo);
    }

    /** `ft_transfer_call` (lib.rs:224-250): the gas check comes before any
        balance change; then the ordinary transfer, and the receiver's
        call gets the prepaid gas less the 30 TGas kept for the rest. */
    method FtTransferCall(caller: AccountId, attached: nat, prepaidGas: nat, receiverId: AccountId,
                          amount: u128, memo: Option<string>, msg: string)
      returns (r: Result<PendingTransfer>)
      requires Valid()
      modifies this`accounts, this`totalSupply, this`events
      ensures Valid()
      ensures attached == 1 && prepaidGas <= GAS_FOR_FT_TRANSFER_CALL ==> r == Err("More gas is required")
      ensures r.Ok? <==> attached == 1 && prepaidGas > GAS_FOR_FT_TRANSFER_CALL
                         && caller != receiverId && amount > 0
                         && caller in old(accounts) && receiverId in old(accounts)
                         && amount <= old(accounts[caller])
      ensures r.Ok? ==>
                accounts == old(accounts)[caller := old(accounts[caller]) - amount]
                                         [receiverId := old(accounts[receiverId]) + amount]
                && totalSupply == old(totalSupply)
                && events == old(events) + [Event.FtTransfer(caller, receiverId, amount, memo)]
                && r.value == PendingTransfer(caller, receiverId, amount, msg,
                                              prepaidGas - GAS_FOR_FT_TRANSFER_CALL)
      ensures r.Err? ==> accounts == old(accounts) && totalSupply == old(totalSupply) && events == old(events)
    {
      var ok := AssertOneYocto(attached);
      if ok.Fail? { return Err(ok.msg); }
      if prepaidGas <= GAS_FOR_FT_TRANSFER_CALL {
        return Err("More gas is required");
      }
      ok := InternalTransfer(caller, receiverId, amount, memo);
      if ok.Fail? { return Err(ok.msg); }
      var receiverGas := prepaidGas - GAS_FOR_FT_TRANSFER_CALL;
      r := Ok(PendingTransfer(caller, receiverId, amount, msg, receiverGas));
    }

    /** `ft_total_supply` (lib.rs:252-254). */
    function FtTotalSupply(): (s: u128)
      reads this
      requires Valid()
      ensures s == Sum(accounts)
    {
      totalSupply
    }

    /** `ft_balance_of` (lib.rs:256-258): 0 for an unregistered account. */
    function FtBalanceOf(accountId: AccountId): (b: u128)
      reads this
      ensures accountId !in accounts ==> b == 0
      ensures accountId in accounts ==> b == accounts[accountId]
    {
      if accountId in accounts then accounts[accountId] else 0
    }

    /** `ft_resolve_transfer` (lib.rs:268-289): a private callback, so
        only the contract itself may call it; reports the used amount of
        the resolve step and logs a burn only when something was burned. */
    method FtResolveTransfer(predecessor: AccountId, current: AccountId, senderId: AccountId,
                             receiverId: AccountId, amount: u128, result: PromiseResult)
      returns (r: Result<u128>)
      requires Valid()
      modifies this`accounts, this`totalSupply, this`events
      ensures Valid()
      ensures r.Ok? <==> predecessor == current
      ensures r.Err? ==> r.msg == "Method ft_resolve_transfer is private"
                         && accounts == old(accounts) && totalSupply == old(totalSupply)
                         && events == old(events)
      ensures r.Ok? ==>
        var s := Settle(old(accounts), old(totalSupply), senderId, receiverId, amount, result);
        r.value == s.resolution.used && accounts == s.accounts && totalSupply == s.totalSupply
        && events == old(events) + s.emitted
                     + (if s.resolution.burned > 0 then [Burned(senderId, s.resolution.burned)] else [])
    {
      var gate := AssertPrivate("ft_resolve_transfer", predecessor, current);
      if gate.Fail? {
        return Err(gate.msg);
      }
      var res := InternalFtResolveTransfer(senderId, receiverId, amount, result);
      var resolution := res.value;
      if resolution.burned > 0 {
        events := events + [Burned(senderId, resolution.burned)];
      }
      r := Ok(resolution.used);
    }
  }

  /** The `new` entry point (lib.rs:83-125) with its `#[init]` and
      `#[private]` gates: a call from another account, or on a contract
      that already holds state, aborts and creates nothing. */
  method Init(predecessor: AccountId, current: AccountId, stateExists: bool,
              owner: AccountId, initialSupply: u128, measuredAccountUsage: nat)
    returns (r: Result<Token>)
    ensures r.Ok? <==> predecessor == current && !stateExists
    ensures r.Err? ==> r.msg == AssertInit(predecessor, current, stateExists).msg
    ensures r.Ok? ==> fresh(r.value) && r.value.Valid()
    ensures r.Ok? ==> r.value.totalSupply == initialSupply && r.value.accounts == map[owner := initialSupply]
    ensures r.Ok? ==> r.value.ownerId == owner && r.value.minters == [owner]
  {
    var gate := AssertInit(predecessor, current, stateExists);
    if gate.Fail? {
      return Err(gate.msg);
    }
    var t := new Token(owner, initialSupply, measuredAccountUsage);
    r := Ok(t);
  }

  /** A partial refund: alice holds 100, transfers 40 to bob by a
      transfer-call, and bob returns 15 of them. A resolve call from any
      account but the contract's own is refused and moves nothing. */
  method PartialRefundScenario()
  {
    var t := new Token("alice", 100, 0);
    var ok := t.InternalRegisterAccount("bob");
    assert ok.Pass?;
    var p := t.FtTransferCall("alice", 1, 40 * TGAS, "bob", 40, None, "");
    assert p.Ok? && t.accounts == map["alice" := 60, "bob" := 40];
    var forged := t.FtResolveTransfer("bob", "token", "alice", "bob", 40, Failed);
    assert forged.Err? && t.accounts == map["alice" := 60, "bob" := 40];
    var used := t.FtResolveTransfer("token", "token", "alice", "bob", 40, Successful(Some(15)));
    assert t.accounts == map["alice" := 75, "bob" := 25] && used == Ok(25);
  }

  /** The receiver spends all but 5 of the 40 it received before the
      call fails: only those 5 come back, and 35 count as used. */
  method SpentBeforeRefundScenario()
  {
    var t := new Token("alice", 100, 0);
    var ok := t.InternalRegisterAccount("bob");
    assert ok.Pass?;
    var p := t.FtTransferCall("alice", 1, 40 * TGAS, "bob", 40, None, "");
    assert p.Ok? && t.accounts == map["alice" := 60, "bob" := 40];
    ok := t.FtTransfer("bob", 1, "alice", 35, None);
    assert t.accounts == map["alice" := 95, "bob" := 5];
    var used := t.FtResolveTransfer("token", "token", "alice", "bob", 40, Failed);
    assert t.accounts == map["alice" := 100, "bob" := 0] && used == Ok(35);
  }

  /** A transfer-call with too little gas moves nothing. */
  method LowGasScenario()
  {
    var t := new Token("alice", 100, 0);
    var ok := t.InternalRegisterAccount("bob");
    assert ok.Pass?;
    var p := t.FtTransferCall("alice", 1, 30 * TGAS, "bob", 40, None, "");
    assert p == Err("More gas is required") && t.accounts == map["alice" := 100, "bob" := 0];
  }
}
