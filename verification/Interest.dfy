/** What interest and socialized losses do to the worth of a bank, down to the rounding of every step. */
module Interest {
  import opened FixedPoint
  import opened Bank

  const SECONDS_PER_YEAR: int := 31_536_000

  /** What the vault has to hold: deposits less borrows at their indexes, in units of 2^-96. */
  function Worth(all: Balance, ix: Indexes): int { all.deposit * ix.deposit - all.borrow * ix.borrow }

  /** Each second of a year brings its share of the yearly rate, rounded down to one unit of the index. */
  lemma Grown(index: Fixed, interest: Fixed)
    requires index > 0 && interest > 0
    ensures YEAR > 0
    ensures var growth := Div(Mul(index, interest), YEAR);
      growth >= 0 && 0 <= index * interest - growth * ONE * SECONDS_PER_YEAR < ONE * SECONDS_PER_YEAR
  {
    var k := Mul(index, interest);
    MulBounds(index, interest);
    MulNonNegative(index, interest);
    CancelUnit(k, SECONDS_PER_YEAR);
    assert Div(k, YEAR) == k * ONE / FromNum(SECONDS_PER_YEAR);
  }

  lemma Utilized(ix: Indexes, all: Balance)
    requires ix.deposit > 0 && ix.borrow > 0 && all.deposit >= 0 && all.borrow >= 0
    ensures var nd, nb, u := all.NativeDeposit(ix), all.NativeBorrow(ix), Utilization(ix, all);
      && nd >= 0 && nb >= 0 && u >= 0 && (nd == 0 ==> u == 0)
      && u * nd <= nb * ONE && (nd > 0 ==> nb * ONE < u * nd + nd)
  {
    var nd, nb := all.NativeDeposit(ix), all.NativeBorrow(ix);
    MulNonNegative(all.deposit, ix.deposit);
    MulNonNegative(all.borrow, ix.borrow);
    if nd > 0 { DivBounds(nb, nd); }
  }

  /**
   * Both indexes stay as they are if interest on deposits comes to nothing. Otherwise the borrow index grows by
   * `rate * seconds` of a year, to within one unit, and the deposit index by the share of that which is borrowed.
   */
  lemma AccrualExact(ix: Indexes, all: Balance, rate: Fixed, seconds: nat)
    requires ix.deposit > 0 && ix.borrow > 0
    ensures
      var ix', interest, u := UpdateIndex(ix, all, rate, seconds), rate * seconds, Utilization(ix, all);
      if interest <= 0 || interest * u < ONE then ix' == ix
      else
        && 0 <= ix.borrow * interest - (ix'.borrow - ix.borrow) * ONE * SECONDS_PER_YEAR < ONE * SECONDS_PER_YEAR
        && 0 <= ix.deposit * (interest * u / ONE) - (ix'.deposit - ix.deposit) * ONE * SECONDS_PER_YEAR
             < ONE * SECONDS_PER_YEAR
  {
    var interest, u := rate * seconds, Utilization(ix, all);
    MulByNum(seconds, rate);
    QuotientOf(interest * u, ONE);
    assert Mul(interest, u) > 0 <==> interest * u >= ONE;
    if interest > 0 && interest * u >= ONE {
      Grown(ix.borrow, interest);
      Grown(ix.deposit, Mul(interest, u));
    }
  }

  /** The gain of all deposits, against the interest on all borrows `owed` at `interest`. */
  lemma DepositsGain(d: nat, index: Fixed, nd: nat, owed: nat, u: nat, interest: nat, growth: int)
    requires nd == Mul(d, index) && index > 0 && u * nd <= owed * ONE <= u * nd + nd
    requires 0 <= index * (interest * u / ONE) - growth * ONE * SECONDS_PER_YEAR < ONE * SECONDS_PER_YEAR
    ensures d * growth * SECONDS_PER_YEAR * ONE <= owed * interest * ONE + u * interest
    ensures d * growth * SECONDS_PER_YEAR * ONE >=
            owed * interest * ONE - interest * nd - nd * ONE - d * ONE * SECONDS_PER_YEAR
  {
    var rate := interest * u / ONE;
    QuotientOf(interest * u, ONE);
    MulBounds(d, index);
    DepositsScaled(d, index, nd, rate, growth);
    Shared(nd, owed, u, interest, rate);
  }

  /** In terms of the rounded worth `nd` of the deposits. */
  lemma DepositsScaled(d: nat, index: Fixed, nd: nat, rate: nat, growth: int)
    requires nd * ONE <= d * index < nd * ONE + ONE
    requires 0 <= index * rate - growth * ONE * SECONDS_PER_YEAR < ONE * SECONDS_PER_YEAR
    ensures d * growth * SECONDS_PER_YEAR <= nd * rate + rate
    ensures d * growth * SECONDS_PER_YEAR >= nd * rate - d * SECONDS_PER_YEAR
  {
    var x, y := d * growth * SECONDS_PER_YEAR, index * rate - growth * ONE * SECONDS_PER_YEAR;
    TimesOrder(0, y, d);
    TimesOrder(y, ONE * SECONDS_PER_YEAR, d);
    assert y * d == d * index * rate - x * ONE by { Expand(d, index, rate, growth); }
    TimesOrder(nd * ONE, d * index, rate);
    TimesOrder(d * index, nd * ONE + ONE, rate);
    assert nd * ONE * rate == nd * rate * ONE && (nd * ONE + ONE) * rate == (nd * rate + rate) * ONE;
  }

  lemma Expand(d: int, index: int, rate: int, growth: int)
    ensures (index * rate - growth * ONE * SECONDS_PER_YEAR) * d ==
            d * index * rate - d * growth * SECONDS_PER_YEAR * ONE
  {
    Distribute(index * rate, -(growth * ONE * SECONDS_PER_YEAR), d);
    assert index * rate * d == d * index * rate;
    assert growth * ONE * SECONDS_PER_YEAR * d == d * growth * SECONDS_PER_YEAR * ONE;
  }

  /** The share of the interest that goes to the deposits, against what is owed on the borrows. */
  lemma Shared(nd: nat, owed: nat, u: nat, interest: nat, rate: nat)
    requires u * nd <= owed * ONE <= u * nd + nd && rate * ONE <= interest * u < rate * ONE + ONE
    ensures (nd * rate + rate) * ONE <= owed * interest * ONE + u * interest
    ensures nd * rate * ONE >= owed * interest * ONE - interest * nd - nd * ONE
  {
    RateTimes(nd, interest * u, rate);
    OwedTimes(nd, owed, u, interest);
    assert (nd * rate + rate) * ONE == nd * rate * ONE + rate * ONE;
  }

  lemma RateTimes(nd: nat, x: int, rate: int)
    requires rate * ONE <= x <= rate * ONE + ONE
    ensures nd * rate * ONE <= x * nd <= nd * rate * ONE + nd * ONE
  {
    TimesOrder(rate * ONE, x, nd);
    TimesOrder(x, rate * ONE + ONE, nd);
    assert rate * ONE * nd == nd * rate * ONE && (rate * ONE + ONE) * nd == nd * rate * ONE + nd * ONE;
  }

  lemma OwedTimes(nd: nat, owed: nat, u: nat, interest: nat)
    requires u * nd <= owed * ONE <= u * nd + nd
    ensures interest * u * nd <= owed * interest * ONE <= interest * u * nd + interest * nd
  {
    TimesOrder(u * nd, owed * ONE, interest);
    TimesOrder(owed * ONE, u * nd + nd, interest);
    assert u * nd * interest == interest * u * nd && (u * nd + nd) * interest == interest * u * nd + interest * nd;
    assert owed * ONE * interest == owed * interest * ONE;
  }

  lemma BorrowsOwe(b: nat, index: Fixed, owed: nat, interest: nat, growth: int)
    requires owed == Mul(b, index) && index > 0
    requires 0 <= index * interest - growth * ONE * SECONDS_PER_YEAR < ONE * SECONDS_PER_YEAR
    ensures owed * interest * ONE - b * SECONDS_PER_YEAR * ONE <= b * growth * SECONDS_PER_YEAR * ONE
              <= owed * interest * ONE + interest * ONE
  {
    MulBounds(b, index);
    DepositsScaled(b, index, owed, interest, growth);
  }

  /**
   * Interest moves worth from borrowers to depositors: what the vault has to hold changes by no more than the rounding,
   * in units of 2^-96 about one for every unit of deposits and borrows.
   */
  lemma AccrualKeepsWorth(ix: Indexes, all: Balance, rate: Fixed, seconds: nat)
    requires ix.deposit > 0 && ix.borrow > 0 && all.deposit >= 0 && all.borrow >= 0
    ensures
      var interest, u, nd := rate * seconds, Utilization(ix, all), all.NativeDeposit(ix);
      var change := Worth(all, UpdateIndex(ix, all, rate, seconds)) - Worth(all, ix);
      if interest <= 0 || interest * u < ONE then change == 0
      else
        -(interest * (nd + ONE) + nd * ONE + all.deposit * ONE * SECONDS_PER_YEAR)
        <= change * SECONDS_PER_YEAR * ONE
        <= interest * u + all.borrow * SECONDS_PER_YEAR * ONE
  {
    AccrualExact(ix, all, rate, seconds);
    Utilized(ix, all);
    var ix', interest, u := UpdateIndex(ix, all, rate, seconds), rate * seconds, Utilization(ix, all);
    var nd, nb := all.NativeDeposit(ix), all.NativeBorrow(ix);
    if interest > 0 && interest * u >= ONE {
      assert u > 0;
      var gd, gb := ix'.deposit - ix.deposit, ix'.borrow - ix.borrow;
      hide UpdateIndex, Utilization;
      DepositsGain(all.deposit, ix.deposit, nd, nb, u, interest, gd);
      BorrowsOwe(all.borrow, ix.borrow, nb, interest, gb);
      WorthMoves(all, ix, ix');
    }
  }

  lemma WorthMoves(all: Balance, ix: Indexes, ix': Indexes)
    ensures
      var gd, gb := ix'.deposit - ix.deposit, ix'.borrow - ix.borrow;
      && Worth(all, ix') - Worth(all, ix) == all.deposit * gd - all.borrow * gb
      && (Worth(all, ix') - Worth(all, ix)) * SECONDS_PER_YEAR * ONE ==
         all.deposit * gd * SECONDS_PER_YEAR * ONE - all.borrow * gb * SECONDS_PER_YEAR * ONE
  {
    Distribute(ix'.deposit, -ix.deposit, all.deposit);
    Distribute(ix'.borrow, -ix.borrow, all.borrow);
  }

  // ----- The rate

  /** A line through the origin, to the rounding of its slope and of the product. */
  lemma LineExact(rise: Fixed, run: Fixed, u: Fixed)
    requires rise >= 0 && run > 0 && u >= 0
    ensures 0 <= (rise * u - Mul(Div(rise, run), u) * run) * ONE <= u * run + run * ONE
  {
    var k, v := Div(rise, run), Mul(Div(rise, run), u);
    DivBounds(rise, run);
    MulBounds(k, u);
    SlopeTimes(rise, run, u, k);
    RateTimes(run, k * u, v);
    assert (rise * u - v * run) * ONE == rise * u * ONE - run * v * ONE;
    assert k * u * run == k * run * u;
  }

  lemma SlopeTimes(rise: Fixed, run: Fixed, u: nat, k: int)
    requires k * run <= rise * ONE <= k * run + run
    ensures k * run * u <= rise * u * ONE <= k * run * u + u * run
  {
    TimesOrder(k * run, rise * ONE, u);
    TimesOrder(rise * ONE, k * run + run, u);
    assert rise * ONE * u == rise * u * ONE && (k * run + run) * u == k * run * u + u * run;
  }

  /** The rate lies on the line from nothing to the optimum, and beyond on the line from there to the maximum. */
  lemma RateExact(u: Fixed, optimalUtil: Fixed, optimalRate: Fixed, maxRate: Fixed)
    requires 0 < optimalUtil < ONE && 0 <= optimalRate <= maxRate && u >= 0
    ensures
      var rate := InterestRate(u, optimalUtil, optimalRate, maxRate);
      if u <= optimalUtil then
        0 <= (optimalRate * u - rate * optimalUtil) * ONE <= u * optimalUtil + optimalUtil * ONE
      else
        var x, run := u - optimalUtil, ONE - optimalUtil;
        0 <= ((maxRate - optimalRate) * x - (rate - optimalRate) * run) * ONE <= x * run + run * ONE
  {
    hide Mul, Div;
    if u <= optimalUtil {
      LineExact(optimalRate, optimalUtil, u);
    } else {
      LineExact(maxRate - optimalRate, ONE - optimalUtil, u - optimalUtil);
    }
  }

  // ----- Losses and cover

  lemma LossSpread(d: nat, index: Fixed, nd: int, loss: nat, borrowIndex: Fixed)
    requires nd == Mul(d, index) > 0 && index > 0 && borrowIndex > 0
    ensures var share := Div(Mul(loss, borrowIndex), nd);
      share >= 0 && -share <= loss * borrowIndex - d * Mul(share, index) <= ONE + nd + d
  {
    var owed := Mul(loss, borrowIndex);
    MulBounds(loss, borrowIndex);
    MulNonNegative(loss, borrowIndex);
    DivBounds(owed, nd);
    var share := Div(owed, nd);
    var cut := Mul(share, index);
    MulBounds(share, index);
    MulBounds(d, index);
    CutWithin(d, index, nd, share, cut);
  }

  lemma CutWithin(d: nat, index: Fixed, nd: nat, share: nat, cut: int)
    requires nd * ONE <= d * index < nd * ONE + ONE && cut * ONE <= share * index < cut * ONE + ONE
    ensures share * nd - d <= d * cut <= share * nd + share
  {
    TimesOrder(cut * ONE, share * index, d);
    TimesOrder(share * index, cut * ONE + ONE, d);
    TimesOrder(nd * ONE, d * index, share);
    TimesOrder(d * index, nd * ONE + ONE, share);
    assert cut * ONE * d == d * cut * ONE && share * index * d == d * index * share;
    assert (cut * ONE + ONE) * d == d * cut * ONE + d * ONE && nd * ONE * share == share * nd * ONE;
    assert (nd * ONE + ONE) * share == share * nd * ONE + share * ONE;
  }

  /**
   * A socialized loss comes off the deposits as it comes off the borrows: what the vault has to hold changes by no more
   * than the share of the loss one way and, in units of 2^-96, the deposits and their worth the other.
   */
  lemma SocializeKeepsWorth(ix: Indexes, tk: Token, i: nat)
    requires TokenOk(tk) && i < |tk.balances| && ix.deposit > 0 && ix.borrow > 0
    ensures SocializeLoss(ix, tk, i).Ok? <==> tk.all.NativeDeposit(ix) > 0
    ensures SocializeLoss(ix, tk, i).Ok? ==>
      var (ix', tk') := SocializeLoss(ix, tk, i).value;
      var nd := tk.all.NativeDeposit(ix);
      && ix'.borrow == ix.borrow && tk'.all == tk.all.AddBorrow(-tk.balances[i].borrow)
      && -Div(tk.balances[i].NativeBorrow(ix), nd) <= Worth(tk'.all, ix') - Worth(tk.all, ix)
           <= ONE + nd + tk.all.deposit
  {
    SocializeClears(ix, tk, i);
    SumsNonNegative(tk.balances);
    assert tk.balances[i] in tk.balances;
    MulNonNegative(tk.all.deposit, ix.deposit);
    if SocializeLoss(ix, tk, i).Ok? { SocializeIs(ix, tk, i); }
    hide SocializeLoss, Mul, Div, TokenOk;
    var d, loss, nd := tk.all.deposit, tk.balances[i].borrow, tk.all.NativeDeposit(ix);
    if nd > 0 {
      LossSpread(d, ix.deposit, nd, loss, ix.borrow);
      WorthLoses(tk.all, ix, Mul(Div(tk.balances[i].NativeBorrow(ix), nd), ix.deposit), loss);
    }
  }

  lemma SocializeIs(ix: Indexes, tk: Token, i: nat)
    requires TokenOk(tk) && i < |tk.balances| && SocializeLoss(ix, tk, i).Ok?
    ensures
      var (ix', tk') := SocializeLoss(ix, tk, i).value;
      var nd := tk.all.NativeDeposit(ix);
      && nd != 0 && tk'.all == tk.all.AddBorrow(-tk.balances[i].borrow)
      && ix' == ix.(deposit := ix.deposit - Mul(Div(tk.balances[i].NativeBorrow(ix), nd), ix.deposit))
  {
    hide Mul, Div;
    SumsBound(tk.balances, i);
  }

  lemma WorthLoses(all: Balance, ix: Indexes, cut: int, loss: int)
    ensures Worth(all.AddBorrow(-loss), ix.(deposit := ix.deposit - cut)) - Worth(all, ix) ==
            loss * ix.borrow - all.deposit * cut
  {
    Distribute(ix.deposit, -cut, all.deposit);
    Distribute(all.borrow, -loss, ix.borrow);
    Negated(all.deposit, cut);
    Negated(loss, ix.borrow);
  }

  /** Deposits cover borrows when a whole number of native tokens lies between what the two are worth. */
  lemma CoveredMeans(all: Balance, ix: Indexes)
    ensures Covered(all, ix) <==> exists n :: all.NativeBorrow(ix) <= n * ONE <= all.NativeDeposit(ix)
  {
    var lent, owed := all.NativeDeposit(ix), all.NativeBorrow(ix);
    if Floor(lent) >= Ceil(owed) { assert owed <= Ceil(owed) * ONE <= lent; }
  }
}
