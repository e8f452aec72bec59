/** Deposits and borrows of one token: indexed balances, the node bank that adds them up, and rounding. */
module Bank {
  import opened Types
  import opened FixedPoint
  import opened Reals

  /** What one unit of a deposit or a borrow is worth in native tokens. */
  datatype Indexes = Indexes(deposit: Fixed, borrow: Fixed)

  /** What an account has of a token, or all accounts together. */
  datatype Balance = Balance(deposit: Fixed, borrow: Fixed)
  {
    function AddDeposit(v: Fixed): Balance { this.(deposit := deposit + v) }
    function AddBorrow(v: Fixed): Balance { this.(borrow := borrow + v) }

    /** The check that an account makes after every change. */
    predicate Proper() { deposit >= 0 && borrow >= 0 && (deposit == 0 || borrow == 0) }

    function NativeDeposit(ix: Indexes): Fixed { Mul(deposit, ix.deposit) }
    function NativeBorrow(ix: Indexes): Fixed { Mul(borrow, ix.borrow) }

    function Net(ix: Indexes): Fixed {
      if deposit > 0 then NativeDeposit(ix) else if borrow > 0 then -NativeBorrow(ix) else 0
    }
  }

  /** Whole native deposits cover whole native borrows. */
  predicate Covered(all: Balance, ix: Indexes) {
    Floor(all.NativeDeposit(ix)) >= Ceil(all.NativeBorrow(ix))
  }

  /** An account and the node bank after the same change; the account checks it. */
  function ChangeBoth(b: Balance, all: Balance, deposit: Fixed, borrow: Fixed): Result<(Balance, Balance)> {
    var b' := b.AddDeposit(deposit).AddBorrow(borrow);
    if b'.Proper() then Ok((b', all.AddDeposit(deposit).AddBorrow(borrow))) else Err(MathError)
  }

  /** Pays down borrows first and then increases deposits. */
  function AddNet(ix: Indexes, b: Balance, all: Balance, q: Fixed): Result<(Balance, Balance)>
    requires ix.deposit > 0 && ix.borrow > 0
  {
    if b.borrow > 0 then
      var native := b.NativeBorrow(ix);
      if q < native then ChangeBoth(b, all, 0, -Div(q, ix.borrow))
      else
        match ChangeBoth(b, all, 0, -b.borrow)
        case Err(e) => Err(e)
        case Ok((b1, all1)) => ChangeBoth(b1, all1, Div(q - native, ix.deposit), 0)
    else ChangeBoth(b, all, Div(q, ix.deposit), 0)
  }

  /** Draws down deposits first and then increases borrows, which the deposits of all have to cover. */
  function SubNet(ix: Indexes, b: Balance, all: Balance, q: Fixed): Result<(Balance, Balance)>
    requires ix.deposit > 0 && ix.borrow > 0
  {
    if b.deposit > 0 && q < b.NativeDeposit(ix) then ChangeBoth(b, all, -Div(q, ix.deposit), 0)
    else
      var native := if b.deposit > 0 then b.NativeDeposit(ix) else 0;
      match (if b.deposit > 0 then ChangeBoth(b, all, -b.deposit, 0) else Ok((b, all)))
      case Err(e) => Err(e)
      case Ok((b1, all1)) =>
        match ChangeBoth(b1, all1, 0, Div(q - native, ix.borrow))
        case Err(e) => Err(e)
        case Ok((b2, all2)) => if Covered(all2, ix) then Ok((b2, all2)) else Err(InsufficientLiquidity)
  }

  function ChangeNet(ix: Indexes, b: Balance, all: Balance, q: Fixed): Result<(Balance, Balance)>
    requires ix.deposit > 0 && ix.borrow > 0
  {
    if q < 0 then SubNet(ix, b, all, -q) else if q > 0 then AddNet(ix, b, all, q) else Ok((b, all))
  }

  // ----- Rounding

  lemma MulBounds(a: Fixed, b: Fixed)
    ensures Mul(a, b) * ONE <= a * b < Mul(a, b) * ONE + ONE
  {
  }

  lemma DivBounds(q: Fixed, ix: Fixed)
    requires q >= 0 && ix > 0
    ensures Div(q, ix) >= 0 && Div(q, ix) * ix <= q * ONE < Div(q, ix) * ix + ix
  {
    assert Div(q, ix) == (q * ONE) / ix;
  }

  /** Taking off less than a balance is worth leaves a balance. */
  lemma DivWithin(q: Fixed, a: Fixed, ix: Fixed)
    requires 0 <= q < Mul(a, ix) && ix > 0
    ensures 0 <= Div(q, ix) <= a
  {
    DivBounds(q, ix);
    MulBounds(a, ix);
    assert q * ONE < Mul(a, ix) * ONE;
    if Div(q, ix) > a { TimesOrder(a, Div(q, ix), ix); }
  }

  lemma MulNonNegative(a: Fixed, b: Fixed)
    requires a >= 0 && b >= 0
    ensures Mul(a, b) >= 0
  {
    assert a * b >= 0 by { TimesOrder(0, a, b); }
  }

  /** Adding `Div(q, ix)` to an indexed amount adds `q` to its worth, to within the index plus one unit. */
  lemma IndexedAdd(a: Fixed, q: Fixed, ix: Fixed)
    requires q >= 0 && ix > 0
    ensures -(ix + ONE) < (Mul(a + Div(q, ix), ix) - Mul(a, ix) - q) * ONE < ONE
  {
    var k := Div(q, ix);
    DivBounds(q, ix);
    MulBounds(a, ix);
    MulBounds(a + k, ix);
    assert (a + k) * ix == a * ix + k * ix;
  }

  /** How far a net change misses what was asked for: less than the larger index, as a number, plus one unit. */
  ghost predicate Near(change: Fixed, q: Fixed, ix: Indexes) {
    -(Max(ix.deposit, ix.borrow) + ONE) < (change - q) * ONE < Max(ix.deposit, ix.borrow) + ONE
  }

  // ----- One change

  ghost predicate SameChange(b: Balance, b': Balance, all: Balance, all': Balance) {
    all' == Balance(all.deposit + b'.deposit - b.deposit, all.borrow + b'.borrow - b.borrow)
  }

  /**
   * Adding never fails, keeps deposit or borrow at zero, is booked the same in the bank, and is precise to rounding.
   */
  lemma AddNetExact(ix: Indexes, b: Balance, all: Balance, q: Fixed)
    requires ix.deposit > 0 && ix.borrow > 0 && b.Proper() && q >= 0
    ensures AddNet(ix, b, all, q).Ok?
    ensures var (b', all') := AddNet(ix, b, all, q).value;
      b'.Proper() && SameChange(b, b', all, all') && Near(b'.Net(ix) - b.Net(ix), q, ix)
  {
    hide Mul, Div;
    NetIs(ix, b);
    if b.borrow > 0 && q < b.NativeBorrow(ix) {
      DivWithin(q, b.borrow, ix.borrow);
      IndexedAdd(b.borrow - Div(q, ix.borrow), q, ix.borrow);
    } else {
      var native := if b.borrow > 0 then b.NativeBorrow(ix) else 0;
      DivBounds(q - native, ix.deposit);
      IndexedAdd(b.deposit, q - native, ix.deposit);
      ZeroWorth(ix.deposit);
    }
    NetIs(ix, AddNet(ix, b, all, q).value.0);
  }

  lemma ZeroWorth(ix: Fixed)
    ensures Mul(0, ix) == 0
  {
  }

  lemma NetIs(ix: Indexes, b: Balance)
    requires b.Proper()
    ensures b.Net(ix) == b.NativeDeposit(ix) - b.NativeBorrow(ix)
  {
  }

  /** Taking away fails only when deposits would no longer cover borrows; otherwise as for adding. */
  lemma SubNetExact(ix: Indexes, b: Balance, all: Balance, q: Fixed)
    requires ix.deposit > 0 && ix.borrow > 0 && b.Proper() && q >= 0
    ensures var r := SubNet(ix, b, all, q);
      var native := if b.deposit > 0 then b.NativeDeposit(ix) else 0;
      var all1 := Balance(all.deposit - b.deposit, all.borrow + Div(q - native, ix.borrow));
      && (r.Err? <==> (b.deposit > 0 ==> q >= native) && !Covered(all1, ix))
      && match r
      case Err(e) => e == InsufficientLiquidity
      case Ok((b', all')) =>
        && b'.Proper() && SameChange(b, b', all, all') && Near(b'.Net(ix) - b.Net(ix), -q, ix)
        && (b'.borrow > b.borrow ==> Covered(all', ix))
  {
    hide Mul, Div, Floor, Ceil;
    NetIs(ix, b);
    if b.deposit > 0 && q < b.NativeDeposit(ix) {
      DivWithin(q, b.deposit, ix.deposit);
      IndexedAdd(b.deposit - Div(q, ix.deposit), q, ix.deposit);
    } else {
      var native := if b.deposit > 0 then b.NativeDeposit(ix) else 0;
      DivBounds(q - native, ix.borrow);
      IndexedAdd(b.borrow, q - native, ix.borrow);
      ZeroWorth(ix.borrow);
    }
    if SubNet(ix, b, all, q).Ok? { NetIs(ix, SubNet(ix, b, all, q).value.0); }
  }

  // ----- All accounts

  /** A token: the balance of every account and the node bank, which holds their sums. */
  datatype Token = Token(balances: seq<Balance>, all: Balance)

  function Sums(balances: seq<Balance>): Balance {
    if balances == [] then Balance(0, 0)
    else
      var rest := Sums(balances[1..]);
      Balance(balances[0].deposit + rest.deposit, balances[0].borrow + rest.borrow)
  }

  ghost predicate TokenOk(tk: Token) {
    (forall b :: b in tk.balances ==> b.Proper()) && tk.all == Sums(tk.balances)
  }

  lemma {:induction false} SumsUpdate(s: seq<Balance>, i: nat, b: Balance)
    requires i < |s|
    ensures Sums(s[i := b]) ==
            Balance(Sums(s).deposit + b.deposit - s[i].deposit, Sums(s).borrow + b.borrow - s[i].borrow)
  {
    if i == 0 {
      assert s[i := b][1..] == s[1..];
    } else {
      assert s[i := b][1..] == s[1..][i - 1 := b];
      SumsUpdate(s[1..], i - 1, b);
    }
  }

  lemma {:induction false} SumsBound(s: seq<Balance>, i: nat)
    requires i < |s| && forall b :: b in s ==> b.Proper()
    ensures s[i].deposit <= Sums(s).deposit && s[i].borrow <= Sums(s).borrow
  {
    assert s[0] in s;
    SumsNonNegative(s[1..]);
    if i > 0 { SumsBound(s[1..], i - 1); }
  }

  lemma {:induction false} SumsNonNegative(s: seq<Balance>)
    requires forall b :: b in s ==> b.Proper()
    ensures Sums(s).deposit >= 0 && Sums(s).borrow >= 0
  {
    if s != [] {
      assert s[0] in s;
      SumsNonNegative(s[1..]);
    }
  }

  /** Changes the net balance of one account. */
  function ChangeAt(ix: Indexes, tk: Token, i: nat, q: Fixed): Result<Token>
    requires ix.deposit > 0 && ix.borrow > 0 && i < |tk.balances|
  {
    match ChangeNet(ix, tk.balances[i], tk.all, q)
    case Err(e) => Err(e)
    case Ok((b, all)) => Ok(Token(tk.balances[i := b], all))
  }

  lemma ChangeAtKeeps(ix: Indexes, tk: Token, i: nat, q: Fixed)
    requires ix.deposit > 0 && ix.borrow > 0 && i < |tk.balances| && TokenOk(tk)
    ensures match ChangeAt(ix, tk, i, q)
      case Err(e) => q < 0 && e == InsufficientLiquidity && SubNet(ix, tk.balances[i], tk.all, -q).Err?
      case Ok(tk') =>
        && TokenOk(tk') && |tk'.balances| == |tk.balances|
        && (q < 0 ==> SubNet(ix, tk.balances[i], tk.all, -q).Ok?)
        && tk'.balances == tk.balances[i := tk'.balances[i]]
        && Near(tk'.balances[i].Net(ix) - tk.balances[i].Net(ix), q, ix)
  {
    hide AddNet, SubNet, Balance.Net;
    var b := tk.balances[i];
    if q < 0 { SubNetExact(ix, b, tk.all, -q); } else { AddNetExact(ix, b, tk.all, q); }
    var r := ChangeNet(ix, b, tk.all, q);
    if r.Ok? {
      var tk' := ChangeAt(ix, tk, i, q).value;
      SumsUpdate(tk.balances, i, r.value.0);
      assert tk'.balances[i] == r.value.0;
      forall x | x in tk'.balances
        ensures x.Proper()
      {
        var k :| 0 <= k < |tk'.balances| && tk'.balances[k] == x;
        assert k == i || x == tk.balances[k];
      }
    }
  }

  /** Moves `q` from `src` to `dst`, the side that gains first. */
  function Transfer(ix: Indexes, tk: Token, src: nat, dst: nat, q: Fixed): Result<Token>
    requires ix.deposit > 0 && ix.borrow > 0 && src < |tk.balances| && dst < |tk.balances|
  {
    if q == 0 then Ok(tk)
    else
      var (first, second) := if q > 0 then (dst, src) else (src, dst);
      match ChangeAt(ix, tk, first, Abs(q))
      case Err(e) => Err(e)
      case Ok(tk1) => if second < |tk1.balances| then ChangeAt(ix, tk1, second, -Abs(q)) else Err(Panic)
  }

  /**
   * A transfer fails just when the account that loses cannot be charged once the other has gained; otherwise what one
   * gains the other loses to twice the rounding.
   */
  lemma TransferKeeps(ix: Indexes, tk: Token, src: nat, dst: nat, q: Fixed)
    requires ix.deposit > 0 && ix.borrow > 0 && src < |tk.balances| && dst < |tk.balances| && src != dst && TokenOk(tk)
    ensures
      var (first, second) := if q > 0 then (dst, src) else (src, dst);
      var gained := AddNet(ix, tk.balances[first], tk.all, Abs(q));
      && (q != 0 ==> gained.Ok?)
      && (Transfer(ix, tk, src, dst, q).Err? <==>
          q != 0 && SubNet(ix, tk.balances[second], gained.value.1, Abs(q)).Err?)
    ensures match Transfer(ix, tk, src, dst, q)
      case Err(e) => e == InsufficientLiquidity
      case Ok(tk') =>
        && TokenOk(tk') && |tk'.balances| == |tk.balances|
        && (forall i :: 0 <= i < |tk.balances| && i != src && i != dst ==> tk'.balances[i] == tk.balances[i])
        && var gain := tk'.balances[dst].Net(ix) - tk.balances[dst].Net(ix);
        var loss := tk.balances[src].Net(ix) - tk'.balances[src].Net(ix);
        && Near(gain, q, ix) && Near(-loss, -q, ix)
        && Abs(gain - loss) * ONE < 2 * (Max(ix.deposit, ix.borrow) + ONE)
  {
    hide AddNet, SubNet, TokenOk, Balance.Net;
    if q != 0 {
      var (first, second) := if q > 0 then (dst, src) else (src, dst);
      ChangeAtKeeps(ix, tk, first, Abs(q));
      var tk1 := ChangeAt(ix, tk, first, Abs(q)).value;
      ChangeAtKeeps(ix, tk1, second, -Abs(q));
    }
  }

  /** The borrow of a bankrupt account is taken from what deposits are worth; each division fails on zero. */
  function SocializeLoss(ix: Indexes, tk: Token, i: nat): Result<(Indexes, Token)>
    requires i < |tk.balances|
  {
    var native := tk.all.NativeDeposit(ix);
    if native == 0 then Err(Panic)
    else
      var share := Div(tk.balances[i].NativeBorrow(ix), native);
      var loss := Min(tk.balances[i].borrow, tk.all.borrow);
      match ChangeBoth(tk.balances[i], tk.all, 0, -loss)
      case Err(e) => Err(e)
      case Ok((b, all)) => Ok((ix.(deposit := ix.deposit - Mul(share, ix.deposit)), Token(tk.balances[i := b], all)))
  }

  /**
   * Socializing fails just when there are no native deposits; else it clears the whole borrow and the sums still agree.
   */
  lemma SocializeClears(ix: Indexes, tk: Token, i: nat)
    requires TokenOk(tk) && i < |tk.balances|
    ensures match SocializeLoss(ix, tk, i)
      case Err(_) => tk.all.NativeDeposit(ix) == 0
      case Ok((ix', tk')) =>
        && tk.all.NativeDeposit(ix) != 0 && ix'.borrow == ix.borrow
        && TokenOk(tk') && tk'.balances == tk.balances[i := tk.balances[i].(borrow := 0)]
  {
    SumsBound(tk.balances, i);
    var b := tk.balances[i].(borrow := 0);
    SumsUpdate(tk.balances, i, b);
    assert tk.balances[i] in tk.balances;
    forall x | x in tk.balances[i := b]
      ensures x.Proper()
    {
      var k :| 0 <= k < |tk.balances| && tk.balances[i := b][k] == x;
      assert k == i || x == tk.balances[k];
    }
  }

  // ----- Interest

  const YEAR: Fixed := FromNum(31_536_000)

  /** Interest as a function of how much of the deposits is borrowed: two straight lines that meet at the optimum. */
  function InterestRate(utilization: Fixed, optimalUtil: Fixed, optimalRate: Fixed, maxRate: Fixed): Fixed
    requires 0 < optimalUtil < ONE
  {
    if utilization > optimalUtil then
      optimalRate + Mul(Div(maxRate - optimalRate, ONE - optimalUtil), utilization - optimalUtil)
    else Mul(Div(optimalRate, optimalUtil), utilization)
  }

  lemma SlopeBound(rise: Fixed, run: Fixed, u: Fixed)
    requires rise >= 0 && 0 <= u <= run && run > 0
    ensures 0 <= Mul(Div(rise, run), u) <= rise
  {
    var k := Div(rise, run);
    DivBounds(rise, run);
    MulNonNegative(k, u);
    MulBounds(k, u);
    TimesOrder(u, run, k);
  }

  lemma MulMonotone(k: Fixed, u: Fixed, v: Fixed)
    requires k >= 0 && u <= v
    ensures Mul(k, u) <= Mul(k, v)
  {
    TimesOrder(u, v, k);
  }

  /** More use never lowers the rate, not even at the kink, and up to full use it stays within the maximum. */
  lemma RateMonotone(u: Fixed, v: Fixed, optimalUtil: Fixed, optimalRate: Fixed, maxRate: Fixed)
    requires 0 < optimalUtil < ONE && 0 <= optimalRate <= maxRate && 0 <= u <= v
    ensures 0 <= InterestRate(u, optimalUtil, optimalRate, maxRate) <=
            InterestRate(v, optimalUtil, optimalRate, maxRate)
    ensures v <= ONE ==> InterestRate(v, optimalUtil, optimalRate, maxRate) <= maxRate
  {
    hide Mul, Div;
    var low, high := Div(optimalRate, optimalUtil), Div(maxRate - optimalRate, ONE - optimalUtil);
    DivBounds(optimalRate, optimalUtil);
    DivBounds(maxRate - optimalRate, ONE - optimalUtil);
    if v <= optimalUtil {
      MulMonotone(low, u, v);
      MulNonNegative(low, u);
      SlopeBound(optimalRate, optimalUtil, v);
    } else {
      MulNonNegative(high, v - optimalUtil);
      if v <= ONE { SlopeBound(maxRate - optimalRate, ONE - optimalUtil, v - optimalUtil); }
      if u <= optimalUtil {
        SlopeBound(optimalRate, optimalUtil, u);
      } else {
        MulNonNegative(high, u - optimalUtil);
        MulMonotone(high, u - optimalUtil, v - optimalUtil);
      }
    }
  }

  function Utilization(ix: Indexes, all: Balance): Fixed {
    if all.NativeDeposit(ix) == 0 then 0 else Div(all.NativeBorrow(ix), all.NativeDeposit(ix))
  }

  /** Interest for `seconds` at `rate`: on borrows in full, on deposits for the share that is borrowed. */
  function UpdateIndex(ix: Indexes, all: Balance, rate: Fixed, seconds: nat): Indexes {
    var interest := Mul(rate, FromNum(seconds));
    var depositInterest := Mul(interest, Utilization(ix, all));
    if interest <= 0 || depositInterest <= 0 then ix
    else Indexes(Div(Mul(ix.deposit, depositInterest), YEAR) + ix.deposit,
                 Div(Mul(ix.borrow, interest), YEAR) + ix.borrow)
  }

  lemma IndexesNeverFall(ix: Indexes, all: Balance, rate: Fixed, seconds: nat)
    requires ix.deposit > 0 && ix.borrow > 0
    ensures var ix' := UpdateIndex(ix, all, rate, seconds); ix'.deposit >= ix.deposit && ix'.borrow >= ix.borrow
  {
    hide Mul, Div, Utilization, FromNum;
    var interest := Mul(rate, FromNum(seconds));
    var depositInterest := Mul(interest, Utilization(ix, all));
    assert YEAR > 0 by { YearPositive(); }
    if interest > 0 && depositInterest > 0 {
      MulNonNegative(ix.deposit, depositInterest);
      MulNonNegative(ix.borrow, interest);
      DivBounds(Mul(ix.deposit, depositInterest), YEAR);
      DivBounds(Mul(ix.borrow, interest), YEAR);
    }
  }

  lemma YearPositive()
    ensures YEAR > 0
  {
  }

  // ----- Exact arithmetic: what the vault has to hold

  datatype Exact = Exact(deposits: real, borrows: real, depositIndex: real, borrowIndex: real)
  {
    /** Native deposits less native borrows: the tokens that have to be in the vault. */
    function Vault(): real { deposits * depositIndex - borrows * borrowIndex }

    function Utilization(): real {
      if deposits * depositIndex == 0.0 then 0.0 else borrows * borrowIndex / (deposits * depositIndex)
    }

    /** The indexes after interest, given as a share of a year's. */
    function Accrue(interest: real): Exact {
      if interest <= 0.0 || interest * Utilization() <= 0.0 then this
      else this.(depositIndex := depositIndex * (interest * Utilization()) + depositIndex,
                 borrowIndex := borrowIndex * interest + borrowIndex)
    }

    /** A borrow of `loss` is written off against all deposits. */
    function Socialize(loss: real): Exact
      requires deposits * depositIndex != 0.0
    {
      this.(depositIndex := depositIndex - (loss * borrowIndex / (deposits * depositIndex)) * depositIndex,
            borrows := borrows - loss)
    }
  }

  lemma Share(a: real, d: real, i: real)
    requires d * i != 0.0
    ensures d * (a / (d * i) * i) == a
  {
    assert d * (a / (d * i) * i) == a / (d * i) * (d * i);
  }

  /** Interest moves value from borrowers to depositors only: the vault need not change, and no index falls. */
  lemma AccrueKeepsVault(x: Exact, interest: real)
    requires x.depositIndex > 0.0 && x.borrowIndex > 0.0
    ensures var y := x.Accrue(interest);
      y.Vault() == x.Vault() && y.depositIndex >= x.depositIndex && y.borrowIndex >= x.borrowIndex
  {
    var u := x.Utilization();
    if interest > 0.0 && interest * u > 0.0 {
      Share(x.borrows * x.borrowIndex, x.deposits, x.depositIndex);
      var gain := x.depositIndex * (interest * u);
      assert x.deposits * gain == interest * (x.deposits * (u * x.depositIndex));
      assert x.borrows * (x.borrowIndex * interest + x.borrowIndex) ==
             interest * (x.borrows * x.borrowIndex) + x.borrows * x.borrowIndex;
      assert x.deposits * (gain + x.depositIndex) == x.deposits * gain + x.deposits * x.depositIndex;
      RealTimes(0.0, x.depositIndex, interest * u);
      RealTimes(0.0, x.borrowIndex, interest);
    }
  }

  /** Writing off a borrow lowers deposits by as much; the index survives just when the loss is within the deposits. */
  lemma SocializeKeepsVault(x: Exact, loss: real)
    requires x.depositIndex > 0.0 && x.deposits > 0.0 && x.borrowIndex > 0.0
    ensures x.deposits * x.depositIndex != 0.0
    ensures var y := x.Socialize(loss);
      && y.Vault() == x.Vault()
      && (y.depositIndex >= 0.0 <==> loss * x.borrowIndex <= x.deposits * x.depositIndex)
  {
    RealStrict(0.0, x.deposits, x.depositIndex);
    var cut := (loss * x.borrowIndex / (x.deposits * x.depositIndex)) * x.depositIndex;
    Share(loss * x.borrowIndex, x.deposits, x.depositIndex);
    assert x.deposits * (x.depositIndex - cut) == x.deposits * x.depositIndex - loss * x.borrowIndex;
    assert (x.borrows - loss) * x.borrowIndex == x.borrows * x.borrowIndex - loss * x.borrowIndex;
    if x.depositIndex - cut >= 0.0 { RealTimes(0.0, x.deposits, x.depositIndex - cut); }
    else { RealStrict(0.0, x.deposits, cut - x.depositIndex); }
  }

  /** The change of deposit and borrow of an account by `q` native tokens, without rounding. */
  function ExactMove(di: real, bi: real, deposit: real, borrow: real, q: real): (real, real)
    requires di > 0.0 && bi > 0.0
  {
    if q >= 0.0 then
      if q < borrow * bi then (0.0, -(q / bi)) else ((q - borrow * bi) / di, -borrow)
    else
      if -q < deposit * di then (-(-q / di), 0.0) else (-deposit, (-q - deposit * di) / bi)
  }

  lemma Smaller(a: real, b: real, k: real)
    requires k > 0.0 && a < b * k
    ensures a / k < b
  {
  }

  lemma Opposite(a: real, b: real)
    ensures -a * b == -(a * b)
  {
  }

  lemma ExactMoveWorth(di: real, bi: real, deposit: real, borrow: real, q: real)
    requires di > 0.0 && bi > 0.0 && deposit >= 0.0 && borrow >= 0.0 && (deposit == 0.0 || borrow == 0.0)
    ensures var (d, b) := ExactMove(di, bi, deposit, borrow, q);
      && d * di - b * bi == q
      && deposit + d >= 0.0 && borrow + b >= 0.0 && (deposit + d == 0.0 || borrow + b == 0.0)
  {
    if q >= 0.0 {
      if q < borrow * bi {
        Quotient(q, bi);
        Opposite(q / bi, bi);
        Smaller(q, borrow, bi);
      } else {
        Quotient(q - borrow * bi, di);
        Opposite(borrow, bi);
      }
    } else {
      if -q < deposit * di {
        Quotient(-q, di);
        Opposite(-q / di, di);
        Smaller(-q, deposit, di);
      } else {
        Quotient(-q - deposit * di, bi);
        Opposite(deposit, di);
      }
    }
  }

  /** Depositing and withdrawing change what the vault has to hold by just what goes in or out. */
  lemma ExactMoveMovesVault(x: Exact, deposit: real, borrow: real, q: real)
    requires x.depositIndex > 0.0 && x.borrowIndex > 0.0
    requires deposit >= 0.0 && borrow >= 0.0 && (deposit == 0.0 || borrow == 0.0)
    ensures var (d, b) := ExactMove(x.depositIndex, x.borrowIndex, deposit, borrow, q);
      && x.(deposits := x.deposits + d, borrows := x.borrows + b).Vault() == x.Vault() + q
      && deposit + d >= 0.0 && borrow + b >= 0.0 && (deposit + d == 0.0 || borrow + b == 0.0)
  {
    hide ExactMove;
    ExactMoveWorth(x.depositIndex, x.borrowIndex, deposit, borrow, q);
  }
}
