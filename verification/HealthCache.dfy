/** The cache that keeps three healths up to date while single values change. */
module HealthCaches {
  import opened Types
  import opened FixedPoint
  import opened PerpState
  import opened Health

  /** The weighted values of the first `n` markets, leaving out those that are not active. */
  function Sum(active: seq<bool>, vals: seq<Val>, weights: seq<Weights>, h: HealthType, n: nat): Fixed
    requires n <= |active| && n <= |vals| && n <= |weights|
  {
    if n == 0 then 0
    else Sum(active, vals, weights, h, n - 1) + (if active[n - 1] then Weighted(vals[n - 1], weights[n - 1], h) else 0)
  }

  /** Changing one value changes the sum by the change of its weighted value, or not at all if it is not active. */
  lemma {:induction false} SumUpdate(active: seq<bool>, vals: seq<Val>, weights: seq<Weights>, h: HealthType, n: nat,
                                     m: nat, v: Val)
    requires n <= |active| && n <= |vals| && n <= |weights| && m < |vals|
    ensures Sum(active, vals[m := v], weights, h, n) == Sum(active, vals, weights, h, n) +
            if m < n && active[m] then Weighted(v, weights[m], h) - Weighted(vals[m], weights[m], h) else 0
  {
    hide Weighted;
    if n > 0 { SumUpdate(active, vals, weights, h, n - 1, m, v); }
  }

  /** Initial weights that count assets for no more and liabilities for no less than maintenance weights do. */
  predicate Stricter(w: Weights) { w.initAsset <= w.maintAsset && w.initLiab >= w.maintLiab }

  lemma StricterValue(v: Val, w: Weights)
    requires Stricter(w)
    ensures Weighted(v, w, Init) <= Weighted(v, w, Maint)
  {
    var i, m := if v.base < 0 then w.initLiab else w.initAsset, if v.base < 0 then w.maintLiab else w.maintAsset;
    if v.base < 0 {
      TimesOrder(m, i, -v.base);
      assert v.base * i == -(-v.base * i) && v.base * m == -(-v.base * m);
    } else {
      TimesOrder(i, m, v.base);
    }
  }

  lemma {:induction false} StricterSum(active: seq<bool>, vals: seq<Val>, weights: seq<Weights>, n: nat)
    requires n <= |active| && n <= |vals| && n <= |weights| && forall i :: 0 <= i < n ==> Stricter(weights[i])
    ensures Sum(active, vals, weights, Init, n) <= Sum(active, vals, weights, Maint, n)
  {
    hide Weighted, Stricter;
    if n > 0 {
      StricterSum(active, vals, weights, n - 1);
      StricterValue(vals[n - 1], weights[n - 1]);
    }
  }

  // ----- What weights cost

  /** What the maintenance weights take off the value of a position, and what the initial weights do. */
  function MaintCharge(v: Val, w: Weights): int {
    if v.base < 0 then (w.maintLiab - ONE) * -v.base else (ONE - w.maintAsset) * v.base
  }

  function InitCharge(v: Val, w: Weights): int {
    if v.base < 0 then (w.initLiab - ONE) * -v.base else (ONE - w.initAsset) * v.base
  }

  /** The charges of the active markets among the first `n`, and their full values. */
  function Charges(active: seq<bool>, vals: seq<Val>, weights: seq<Weights>, initial: bool, n: nat): int
    requires n <= |active| && n <= |vals| && n <= |weights|
  {
    if n == 0 then 0
    else
      Charges(active, vals, weights, initial, n - 1) +
      if !active[n - 1] then 0
      else if initial then InitCharge(vals[n - 1], weights[n - 1])
      else MaintCharge(vals[n - 1], weights[n - 1])
  }

  function FullValue(active: seq<bool>, vals: seq<Val>, n: nat): Fixed
    requires n <= |active| && n <= |vals|
  {
    if n == 0 then 0
    else FullValue(active, vals, n - 1) + if active[n - 1] then vals[n - 1].base + vals[n - 1].quote else 0
  }

  /** Rounding takes less than one unit off a market. */
  lemma WeightedCharge(v: Val, w: Weights)
    ensures Weighted(v, w, Equity) == v.base + v.quote
    ensures 0 <= (v.base + v.quote - Weighted(v, w, Maint)) * ONE - MaintCharge(v, w) < ONE
    ensures 0 <= (v.base + v.quote - Weighted(v, w, Init)) * ONE - InitCharge(v, w) < ONE
  {
    Rounded(v.base, if v.base < 0 then w.maintLiab else w.maintAsset);
    Rounded(v.base, if v.base < 0 then w.initLiab else w.initAsset);
    Rounded(v.base, ONE);
  }

  lemma Rounded(base: int, weight: int)
    ensures 0 <= (base - Mul(base, weight)) * ONE - (ONE - weight) * base < ONE
    ensures (ONE - weight) * base == (weight - ONE) * -base
    ensures weight == ONE ==> Mul(base, weight) == base
  {
    assert (ONE - weight) * base == ONE * base - weight * base;
  }

  lemma {:induction false} SumCharges(active: seq<bool>, vals: seq<Val>, weights: seq<Weights>, n: nat)
    requires n <= |active| && n <= |vals| && n <= |weights|
    ensures Sum(active, vals, weights, Equity, n) == FullValue(active, vals, n)
    ensures 0 <= (FullValue(active, vals, n) - Sum(active, vals, weights, Maint, n)) * ONE
                 - Charges(active, vals, weights, false, n) <= n * ONE
    ensures 0 <= (FullValue(active, vals, n) - Sum(active, vals, weights, Init, n)) * ONE
                 - Charges(active, vals, weights, true, n) <= n * ONE
  {
    hide Weighted, MaintCharge, InitCharge;
    if n > 0 {
      SumCharges(active, vals, weights, n - 1);
      WeightedCharge(vals[n - 1], weights[n - 1]);
    }
  }

  function Shifted(x: Option<Fixed>, change: Fixed): Option<Fixed> {
    match x case None => None case Some(h) => Some(h + change)
  }

  function TypeAt(i: nat): (h: HealthType)
    requires i < NUM_HEALTHS
    ensures IndexOf(h) == i
  {
    if i == 0 then Maint else if i == 1 then Init else Equity
  }

  class HealthCache {
    const spotWeights: seq<Weights>
    const perpWeights: seq<Weights>
    const spotActive: seq<bool>
    const perpActive: seq<bool>
    var spot: seq<Val>
    var perp: seq<Val>
    var quote: Fixed
    var health: seq<Option<Fixed>>

    ghost predicate Valid()
      reads this
    {
      && |spotWeights| == |perpWeights| == |spotActive| == |perpActive| == |spot| == |perp|
      && |health| == NUM_HEALTHS
    }

    /** The health computed afresh from the current values. */
    ghost function HealthOf(h: HealthType): Fixed
      requires Valid()
      reads this
    {
      quote + Sum(spotActive, spot, spotWeights, h, |spot|) + Sum(perpActive, perp, perpWeights, h, |perp|)
    }

    /** Every health in the cache is what it would be computed afresh, to the bit. */
    ghost predicate UpToDate()
      requires Valid()
      reads this
    {
      forall h :: health[IndexOf(h)].Some? ==> health[IndexOf(h)].value == HealthOf(h)
    }

    constructor (spotWeights: seq<Weights>, perpWeights: seq<Weights>, spotActive: seq<bool>, perpActive: seq<bool>)
      requires |spotWeights| == |perpWeights| == |spotActive| == |perpActive|
      ensures Valid() && UpToDate()
      ensures this.spotActive == spotActive && this.perpActive == perpActive
      ensures this.spotWeights == spotWeights && this.perpWeights == perpWeights
    {
      this.spotWeights, this.perpWeights := spotWeights, perpWeights;
      this.spotActive, this.perpActive := spotActive, perpActive;
      spot := seq(|spotActive|, _ => Val(0, 0));
      perp := seq(|perpActive|, _ => Val(0, 0));
      quote, health := 0, [None, None, None];
    }

    /** Takes the values of the active markets; done before any health is computed. */
    method InitVals(net: Fixed, spotVals: seq<Val>, perpVals: seq<Val>)
      requires Valid() && |spotVals| == |spot| && |perpVals| == |perp|
      requires health == [None, None, None]
      modifies this`spot, this`perp, this`quote
      ensures Valid() && UpToDate() && quote == net && health == old(health)
      ensures forall i :: 0 <= i < |spot| ==> spot[i] == if spotActive[i] then spotVals[i] else old(spot[i])
      ensures forall i :: 0 <= i < |perp| ==> perp[i] == if perpActive[i] then perpVals[i] else old(perp[i])
    {
      quote := net;
      var i := 0;
      while i < |spot|
        invariant 0 <= i <= |spot| && Valid() && |spot| == old(|spot|) && quote == net
        invariant forall j :: 0 <= j < |spot| ==>
          spot[j] == if j < i && spotActive[j] then spotVals[j] else old(spot[j])
        invariant forall j :: 0 <= j < |perp| ==>
          perp[j] == if j < i && perpActive[j] then perpVals[j] else old(perp[j])
      {
        if spotActive[i] { spot := spot[i := spotVals[i]]; }
        if perpActive[i] { perp := perp[i := perpVals[i]]; }
        i := i + 1;
      }
    }

    /** The cached health, computed if it has not been yet. */
    method GetHealth(h: HealthType) returns (r: Fixed)
      requires Valid()
      modifies this`health
      ensures Valid() && health[IndexOf(h)] == Some(r)
      ensures old(health[IndexOf(h)]).Some? ==> r == old(health[IndexOf(h)]).value && health == old(health)
      ensures old(health[IndexOf(h)]).None? ==> r == HealthOf(h) && health == old(health)[IndexOf(h) := Some(r)]
      ensures old(UpToDate()) ==> UpToDate() && r == HealthOf(h)
    {
      var cached := health[IndexOf(h)];
      if cached.Some? {
        return cached.value;
      }
      r := quote;
      var i := 0;
      while i < |spot|
        invariant 0 <= i <= |spot|
        invariant r == quote + Sum(spotActive, spot, spotWeights, h, i) + Sum(perpActive, perp, perpWeights, h, i)
      {
        if spotActive[i] {
          var v := spot[i];
          var weight := if v.base < 0 then spotWeights[i].Liab(h) else spotWeights[i].Asset(h);
          r := r + (Mul(v.base, weight) + v.quote);
        }
        if perpActive[i] {
          var v := perp[i];
          var weight := if v.base < 0 then perpWeights[i].Liab(h) else perpWeights[i].Asset(h);
          r := r + (Mul(v.base, weight) + v.quote);
        }
        i := i + 1;
      }
      health := health[IndexOf(h) := Some(r)];
    }

    /** All values in full, and what the weights take off them. */
    ghost function Worth(): Fixed
      requires Valid()
      reads this
    {
      quote + FullValue(spotActive, spot, |spot|) + FullValue(perpActive, perp, |perp|)
    }

    ghost function Charged(initial: bool): int
      requires Valid()
      reads this
    {
      Charges(spotActive, spot, spotWeights, initial, |spot|) + Charges(perpActive, perp, perpWeights, initial, |perp|)
    }

    /**
     * Equity is all values in full; maintenance and initial health are that less what the weights of the one or the
     * other kind take off assets and put on liabilities, to within one unit a market.
     */
    lemma HealthCharges()
      requires Valid()
      ensures HealthOf(Equity) == Worth()
      ensures 0 <= (Worth() - HealthOf(Maint)) * ONE - Charged(false) <= 2 * |spot| * ONE
      ensures 0 <= (Worth() - HealthOf(Init)) * ONE - Charged(true) <= 2 * |spot| * ONE
    {
      SumCharges(spotActive, spot, spotWeights, |spot|);
      SumCharges(perpActive, perp, perpWeights, |perp|);
    }

    /** An account below its maintenance health is below its initial health as well. */
    lemma InitAtMostMaint()
      requires Valid()
      requires forall w :: w in spotWeights || w in perpWeights ==> Stricter(w)
      ensures HealthOf(Init) <= HealthOf(Maint)
    {
      StricterSum(spotActive, spot, spotWeights, |spot|);
      StricterSum(perpActive, perp, perpWeights, |perp|);
    }

    /** A new balance of the quote token. */
    method UpdateQuote(net: Fixed)
      requires Valid()
      modifies this`quote, this`health
      ensures Valid() && quote == net && (old(UpToDate()) ==> UpToDate())
      ensures forall i :: 0 <= i < NUM_HEALTHS ==>
        health[i] == Shifted(old(health[i]), net - old(quote))
    {
      var i := 0;
      while i < NUM_HEALTHS
        invariant 0 <= i <= NUM_HEALTHS && |health| == NUM_HEALTHS && quote == old(quote)
        invariant forall j :: i <= j < NUM_HEALTHS ==> health[j] == old(health[j])
        invariant forall j :: 0 <= j < i ==>
          health[j] == Shifted(old(health[j]), net - old(quote))
      {
        if health[i].Some? { health := health[i := Some(health[i].value + net - quote)]; }
        i := i + 1;
      }
      quote := net;
    }

    /** Adds to every cached health the change of one weighted value. */
    method ShiftHealths(v: Val, previous: Val, w: Weights)
      requires Valid()
      modifies this`health
      ensures Valid()
      ensures forall i :: 0 <= i < NUM_HEALTHS ==>
        health[i] == Shifted(old(health[i]), Weighted(v, w, TypeAt(i)) - Weighted(previous, w, TypeAt(i)))
    {
      var i := 0;
      while i < NUM_HEALTHS
        invariant 0 <= i <= NUM_HEALTHS && |health| == NUM_HEALTHS
        invariant forall j :: i <= j < NUM_HEALTHS ==> health[j] == old(health[j])
        invariant forall j :: 0 <= j < i ==>
          health[j] == Shifted(old(health[j]), Weighted(v, w, TypeAt(j)) - Weighted(previous, w, TypeAt(j)))
      {
        if health[i].Some? {
          var h := TypeAt(i);
          health := health[i := Some(health[i].value + Weighted(v, w, h) - Weighted(previous, w, h))];
        }
        i := i + 1;
      }
    }

    /** The cache stays right on active markets; on others just if no cached health sees the change. */
    method UpdateSpotVal(m: nat, v: Val)
      requires Valid() && m < |spot|
      modifies this`spot, this`health
      ensures Valid() && spot == old(spot)[m := v]
      ensures old(UpToDate()) ==>
        (UpToDate() <==> spotActive[m] || forall h :: old(health[IndexOf(h)]).Some? ==>
                                            Weighted(v, spotWeights[m], h) == Weighted(old(spot[m]), spotWeights[m], h))
    {
      hide Weighted;
      ShiftHealths(v, spot[m], spotWeights[m]);
      forall h { SumUpdate(spotActive, spot, spotWeights, h, |spot|, m, v); }
      spot := spot[m := v];
    }

    method UpdatePerpVal(m: nat, p: PerpPosition, t: MarketTotals, price: Fixed)
      requires Valid() && m < |perp|
      modifies this`perp, this`health
      ensures Valid() && perp == old(perp)[m := PerpVal(p, t, price)]
      ensures forall i :: 0 <= i < NUM_HEALTHS ==> health[i] == Shifted(old(health[i]),
        Weighted(PerpVal(p, t, price), perpWeights[m], TypeAt(i)) - Weighted(old(perp[m]), perpWeights[m], TypeAt(i)))
      ensures old(UpToDate()) ==>
        (UpToDate() <==> perpActive[m] || forall h :: old(health[IndexOf(h)]).Some? ==>
                           Weighted(PerpVal(p, t, price), perpWeights[m], h) ==
                             Weighted(old(perp[m]), perpWeights[m], h))
    {
      hide Weighted, PerpVal;
      var v := PerpVal(p, t, price);
      ShiftHealths(v, perp[m], perpWeights[m]);
      forall h { SumUpdate(perpActive, perp, perpWeights, h, |perp|, m, v); }
      perp := perp[m := v];
    }

    /** The health after an order has added to the position what it is expected to, with its fees. */
    function HealthAfterSim(m: nat, p: PerpPosition, t: MarketTotals, price: Fixed, h: HealthType, fees: Fixed):
      Option<Fixed>
      requires Valid() && m < |perp|
      reads this
    {
      Shifted(health[IndexOf(h)],
              Weighted(PerpVal(p, t, price), perpWeights[m], h) - Weighted(perp[m], perpWeights[m], h) - fees)
    }
  }
}
