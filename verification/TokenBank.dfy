/** Moving tokens between accounts: the account and the node bank change together. */
module TokenBanks {
  import opened Types
  import opened FixedPoint
  import opened Bank
  import opened MangoAccounts

  class NodeBank {
    var deposits: Fixed
    var borrows: Fixed

    constructor ()
      ensures All() == Balance(0, 0)
    {
      deposits, borrows := 0, 0;
    }

    function All(): Balance
      reads this
    {
      Balance(deposits, borrows)
    }

    /** Whole native deposits, rounded down, cover whole native borrows, rounded up. */
    method HasValidDepositsBorrows(ix: Indexes) returns (r: bool)
      ensures r == Covered(All(), ix)
    {
      r := Floor(Mul(deposits, ix.deposit)) >= Ceil(Mul(borrows, ix.borrow));
    }
  }

  /** Nothing but token `i` of the account has changed. */
  twostate predicate OnlyToken(account: MangoAccount, i: nat)
    reads account
  {
    && |account.deposits| == old(|account.deposits|) && |account.borrows| == old(|account.borrows|)
    && i < |account.deposits| && i < |account.borrows|
    && account.deposits == old(account.deposits)[i := account.deposits[i]]
    && account.borrows == old(account.borrows)[i := account.borrows[i]]
  }

  /** What a method has made of an account and the bank: the outcome of the rules, or a failure that is rolled back. */
  twostate predicate Follows(r: Result<(Balance, Balance)>, ok: bool, account: MangoAccount, bank: NodeBank, i: nat)
    requires OnlyToken(account, i)
    reads account, bank
  {
    ok == r.Ok? && (ok ==> (account.Token(i), bank.All()) == r.value)
  }

  method CheckedChangeDeposit(bank: NodeBank, account: MangoAccount, i: nat, v: Fixed) returns (ok: bool)
    requires i < |account.deposits| && i < |account.borrows|
    modifies bank`deposits, account`deposits
    ensures OnlyToken(account, i)
    ensures Follows(ChangeBoth(old(account.Token(i)), old(bank.All()), v, 0), ok, account, bank, i)
  {
    ok := account.ChangeDeposit(i, v);
    bank.deposits := bank.deposits + v;
  }

  method CheckedChangeBorrow(bank: NodeBank, account: MangoAccount, i: nat, v: Fixed) returns (ok: bool)
    requires i < |account.deposits| && i < |account.borrows|
    modifies bank`borrows, account`borrows
    ensures OnlyToken(account, i)
    ensures Follows(ChangeBoth(old(account.Token(i)), old(bank.All()), 0, v), ok, account, bank, i)
  {
    ok := account.ChangeBorrow(i, v);
    bank.borrows := bank.borrows + v;
  }

  method CheckedAddNet(ix: Indexes, bank: NodeBank, account: MangoAccount, i: nat, quantity: Fixed) returns (ok: bool)
    requires ix.deposit > 0 && ix.borrow > 0 && i < |account.deposits| && i < |account.borrows|
    modifies bank, account`deposits, account`borrows
    ensures OnlyToken(account, i)
    ensures Follows(AddNet(ix, old(account.Token(i)), old(bank.All()), quantity), ok, account, bank, i)
  {
    hide Mul, Div;
    var q := quantity;
    if account.borrows[i] > 0 {
      var native := Mul(account.borrows[i], ix.borrow);
      if q < native {
        ok := CheckedChangeBorrow(bank, account, i, -Div(q, ix.borrow));
        return;
      }
      ok := CheckedChangeBorrow(bank, account, i, -account.borrows[i]);
      if !ok { return; }
      q := q - native;
    }
    ok := CheckedChangeDeposit(bank, account, i, Div(q, ix.deposit));
  }

  method CheckedSubNet(ix: Indexes, bank: NodeBank, account: MangoAccount, i: nat, quantity: Fixed) returns (ok: bool)
    requires ix.deposit > 0 && ix.borrow > 0 && i < |account.deposits| && i < |account.borrows|
    modifies bank, account`deposits, account`borrows
    ensures OnlyToken(account, i)
    ensures Follows(SubNet(ix, old(account.Token(i)), old(bank.All()), quantity), ok, account, bank, i)
  {
    hide Mul, Div, Floor, Ceil;
    var q := quantity;
    if account.deposits[i] > 0 {
      var native := Mul(account.deposits[i], ix.deposit);
      if q < native {
        ok := CheckedChangeDeposit(bank, account, i, -Div(q, ix.deposit));
        return;
      }
      ok := CheckedChangeDeposit(bank, account, i, -account.deposits[i]);
      if !ok { return; }
      q := q - native;
    }
    ok := CheckedChangeBorrow(bank, account, i, Div(q, ix.borrow));
    if ok { ok := bank.HasValidDepositsBorrows(ix); }
  }

  method CheckedChangeNet(ix: Indexes, bank: NodeBank, account: MangoAccount, i: nat, quantity: Fixed)
    returns (ok: bool)
    requires ix.deposit > 0 && ix.borrow > 0 && i < |account.deposits| && i < |account.borrows|
    modifies bank, account`deposits, account`borrows
    ensures OnlyToken(account, i)
    ensures Follows(ChangeNet(ix, old(account.Token(i)), old(bank.All()), quantity), ok, account, bank, i)
  {
    hide AddNet, SubNet;
    ok := true;
    if quantity < 0 {
      ok := CheckedSubNet(ix, bank, account, i, -quantity);
    } else if quantity > 0 {
      ok := CheckedAddNet(ix, bank, account, i, quantity);
    }
  }

  /** Takes `quantity` from `src` and gives it to `dst`; the side that gains goes first. */
  method TransferTokenInternal(ix: Indexes, bank: NodeBank, src: MangoAccount, dst: MangoAccount, i: nat,
                               quantity: Fixed)
    returns (ok: bool)
    requires ix.deposit > 0 && ix.borrow > 0 && src != dst
    requires i < |src.deposits| && i < |src.borrows| && i < |dst.deposits| && i < |dst.borrows|
    modifies bank, src`deposits, src`borrows, dst`deposits, dst`borrows
    ensures OnlyToken(src, i) && OnlyToken(dst, i)
    ensures var r := Transfer(ix, Token([old(src.Token(i)), old(dst.Token(i))], old(bank.All())), 0, 1, quantity);
      ok == r.Ok? && (ok ==> Token([src.Token(i), dst.Token(i)], bank.All()) == r.value)
  {
    hide ChangeNet;
    ok := true;
    if quantity > 0 {
      ok := CheckedChangeNet(ix, bank, dst, i, quantity);
      if !ok { return; }
      ok := CheckedChangeNet(ix, bank, src, i, -quantity);
    } else if quantity < 0 {
      ok := CheckedChangeNet(ix, bank, src, i, -quantity);
      if !ok { return; }
      ok := CheckedChangeNet(ix, bank, dst, i, quantity);
    }
  }

  class RootBank {
    const optimalUtil: Fixed
    const optimalRate: Fixed
    const maxRate: Fixed
    var depositIndex: Fixed
    var borrowIndex: Fixed
    var lastUpdated: nat

    constructor (optimalUtil: Fixed, optimalRate: Fixed, maxRate: Fixed, now: nat)
      ensures Current() == Indexes(ONE, ONE) && lastUpdated == now
      ensures (this.optimalUtil, this.optimalRate, this.maxRate) == (optimalUtil, optimalRate, maxRate)
    {
      this.optimalUtil, this.optimalRate, this.maxRate := optimalUtil, optimalRate, maxRate;
      depositIndex, borrowIndex, lastUpdated := ONE, ONE, now;
    }

    function Current(): Indexes
      reads this
    {
      Indexes(depositIndex, borrowIndex)
    }

    /** Adds the interest since the last time to both indexes. */
    method UpdateIndexWithoutBanks(now: nat, deposits: Fixed, borrows: Fixed)
      requires 0 < optimalUtil < ONE && lastUpdated <= now
      modifies this
      ensures
        var ix, all := old(Current()), Balance(deposits, borrows);
        Current() == UpdateIndex(ix, all, InterestRate(Utilization(ix, all), optimalUtil, optimalRate, maxRate),
                                 now - old(lastUpdated))
      ensures lastUpdated == now
    {
      hide Mul, Div, InterestRate, FromNum;
      var nativeDeposits := Mul(deposits, depositIndex);
      var nativeBorrows := Mul(borrows, borrowIndex);
      var utilization := if nativeDeposits == 0 then 0 else Div(nativeBorrows, nativeDeposits);
      var rate := InterestRate(utilization, optimalUtil, optimalRate, maxRate);
      var borrowInterest := Mul(rate, FromNum(now - lastUpdated));
      var depositInterest := Mul(borrowInterest, utilization);
      lastUpdated := now;
      if borrowInterest <= 0 || depositInterest <= 0 {
        return;
      }
      YearPositive();
      borrowIndex := Div(Mul(borrowIndex, borrowInterest), YEAR) + borrowIndex;
      depositIndex := Div(Mul(depositIndex, depositInterest), YEAR) + depositIndex;
    }

    /** Takes the borrow of a bankrupt account from the worth of all deposits. */
    method SocializeLoss(bank: NodeBank, account: MangoAccount, i: nat) returns (ok: bool)
      requires i < |account.deposits| && i < |account.borrows|
      modifies this`depositIndex, bank`borrows, account`borrows
      ensures OnlyToken(account, i)
      ensures var r := Bank.SocializeLoss(old(Current()), Token([old(account.Token(i))], old(bank.All())), 0);
        ok == r.Ok? && (ok ==> (Current(), Token([account.Token(i)], bank.All())) == r.value)
    {
      hide Mul, Div;
      var nativeDeposits := Mul(bank.deposits, depositIndex);
      if nativeDeposits == 0 {
        return false;
      }
      var loss := account.borrows[i];
      var share := Div(Mul(loss, borrowIndex), nativeDeposits);
      depositIndex := depositIndex - Mul(share, depositIndex);
      ok := CheckedChangeBorrow(bank, account, i, -Min(loss, bank.borrows));
      assert [old(account.Token(i))][0 := account.Token(i)] == [account.Token(i)];
    }
  }
}
