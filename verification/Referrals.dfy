/** Who gets the referral part of the taker fees, and what a dry run takes it to be. */
module Referrals {
  import opened Types
  import opened FixedPoint
  import opened OrderPlacement

  const CENTIBPS_PER_UNIT: Fixed := FromNum(1_000_000)

  /** The terms of the group: the deposit that frees from the surcharge and the surcharges and shares of two tiers. */
  datatype RefTerms = RefTerms(
    listed: bool, required: nat, tier2Factor: nat, surcharge1: nat, share1: nat, surcharge2: nat, share2: nat)
  {
    predicate Tier2() { surcharge2 != 0 && share2 != 0 }

    function Required(): Fixed { FromNum(required) }

    function RequiredTier2(): Fixed { Mul(FromNum(required), FromNum(tier2Factor)) }

    function Rate(centibps: nat): Fixed { Div(FromNum(centibps), CENTIBPS_PER_UNIT) }
  }

  datatype Referrer = Referrer(deposits: Fixed, bankrupt: bool, beingLiquidated: bool)

  /** The rate of the referral part and whether a referrer gets it; `referrer` is one whose account could be loaded. */
  function DetermineRefVars(g: RefTerms, deposits: Fixed, referrer: Option<Referrer>, cacheValid: bool):
    Result<Referral>
  {
    if !g.listed then Ok(Referral(0, false))
    else if deposits >= (if g.Tier2() then g.RequiredTier2() else g.Required()) then Ok(Referral(0, false))
    else if g.Tier2() && deposits >= g.Required() then Ok(Referral(g.Rate(g.surcharge1), false))
    else if referrer.Some? && !cacheValid then Err(InvalidState)
    else if referrer.Some? && !referrer.value.bankrupt && !referrer.value.beingLiquidated
            && referrer.value.deposits >= g.Required() then
      var share := if g.Tier2() && referrer.value.deposits >= g.RequiredTier2() then g.share2 else g.share1;
      Ok(Referral(g.Rate(share), true))
    else Ok(Referral(g.Rate(if g.Tier2() then g.surcharge2 else g.surcharge1), false))
  }

  /** The fees that a dry run charges for a change of `takerQuote` lots, taking it that there is no referrer. */
  function SimFees(g: RefTerms, deposits: Fixed, takerFee: Fixed, quoteLotSize: int, takerQuote: int): Fixed {
    if takerQuote == 0 then 0
    else
      var native := FromNum(quoteLotSize * Abs(takerQuote));
      var fees := Mul(takerFee, native);
      if !g.listed then fees
      else if g.Tier2() && deposits < g.RequiredTier2() then
        fees + Mul(g.Rate(if g.Tier2() && deposits < g.Required() then g.surcharge2 else g.surcharge1), native)
      else if !g.Tier2() && deposits < g.Required() then fees + Mul(g.Rate(g.surcharge1), native)
      else fees
  }

  lemma RateNonNegative(g: RefTerms, centibps: nat)
    ensures g.Rate(centibps) >= 0
  {
    assert FromNum(centibps) * ONE >= 0;
  }

  /** The two ways of choosing a tier agree when there is no referrer, for all deposits and terms. */
  lemma TiersAgree(g: RefTerms, deposits: Fixed, cacheValid: bool, takerFee: Fixed, quoteLotSize: int, takerQuote: int)
    ensures var r := DetermineRefVars(g, deposits, None, cacheValid);
      var native := quoteLotSize * Abs(takerQuote);
      && r.Ok? && !r.value.referred && r.value.rate >= 0
      && SimFees(g, deposits, takerFee, quoteLotSize, takerQuote) ==
         if takerQuote == 0 then 0 else native * takerFee + native * r.value.rate
  {
    var rate := DetermineRefVars(g, deposits, None, cacheValid).value.rate;
    RateNonNegative(g, g.surcharge1);
    RateNonNegative(g, g.surcharge2);
    hide RefTerms.Rate, RefTerms.RequiredTier2, RefTerms.Required, FromNum, Mul;
    MulByNum(quoteLotSize * Abs(takerQuote), takerFee);
    MulByNum(quoteLotSize * Abs(takerQuote), rate);
  }

  /** A rate in hundredths of a basis point, to one unit. */
  lemma RateIs(g: RefTerms, centibps: nat)
    ensures 0 <= centibps * ONE - g.Rate(centibps) * 1_000_000 < 1_000_000
  {
    CancelUnit(centibps * ONE, 1_000_000);
    assert g.Rate(centibps) == FromNum(centibps) * ONE / CENTIBPS_PER_UNIT;
  }

  /** A referrer that counts: it has the deposit, is solvent and is not under liquidation. */
  predicate Eligible(g: RefTerms, r: Referrer) { r.deposits >= g.Required() && !r.bankrupt && !r.beingLiquidated }

  /** The part of the fees for the referrer or the surcharge, in hundredths of a basis point. */
  function Centibps(g: RefTerms, deposits: Fixed, referrer: Option<Referrer>): nat {
    var tier1, tier2 := deposits >= g.Required(), deposits >= g.RequiredTier2();
    if !g.listed || (g.Tier2() && tier2) || (!g.Tier2() && tier1) then 0
    else if tier1 then g.surcharge1
    else
      match referrer
      case Some(r) =>
        if !Eligible(g, r) then (if g.Tier2() then g.surcharge2 else g.surcharge1)
        else if g.Tier2() && r.deposits >= g.RequiredTier2() then g.share2 else g.share1
      case None => if g.Tier2() then g.surcharge2 else g.surcharge1
  }

  /** Free of any part are those with the deposit for it; below both deposits it goes to a referrer that counts. */
  lemma ReferralTerms(g: RefTerms, deposits: Fixed, referrer: Option<Referrer>, cacheValid: bool)
    ensures
      var r := DetermineRefVars(g, deposits, referrer, cacheValid);
      var low := g.listed && deposits < g.Required() && (g.Tier2() ==> deposits < g.RequiredTier2());
      && (r.Err? <==> low && referrer.Some? && !cacheValid)
      && (r.Ok? ==>
        && (r.value.referred <==> low && referrer.Some? && Eligible(g, referrer.value))
        && 0 <= Centibps(g, deposits, referrer) * ONE - r.value.rate * 1_000_000 < 1_000_000)
  {
    hide RefTerms.Rate, RefTerms.RequiredTier2, RefTerms.Required;
    RateIs(g, Centibps(g, deposits, referrer));
  }
}
