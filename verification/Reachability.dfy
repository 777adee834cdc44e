// Every price on the curve can be reached, and so can every branch of the stabilizer: the draws that
// lead there, for any ready market and any table with debt.

module Reachability {
  import opened Arithmetic
  import opened RealPower
  import opened PriceCurve
  import opened Troves
  import opened Redemption
  import opened Stabilizer

  // Draws that put the curve price at `price`, with an empty stability pool. Only the growth of
  // demand has to be chosen for it.
  ghost function DrawsAt(ts: seq<Trove>, mk: Market, price: real, ratio: real, order: seq<Trove>): MarketDraws
    requires MarketReady(mk)
  {
    PowPositive(mk.price, ELASTICITY);
    SignOfProduct(Pow(mk.price, ELASTICITY), mk.liquidity);
    var growth := Pow(price, ELASTICITY) * TotalSupply(ts) / (Pow(mk.price, ELASTICITY) * mk.liquidity);
    MarketDraws(0.0, growth, price, price, ratio, order)
  }

  lemma EveryPriceIsReachable(ts: seq<Trove>, mk: Market, price: real, ratio: real, order: seq<Trove>)
    requires MarketReady(mk) && AllSound(ts) && TotalSupply(ts) > 0.0 && AscendingOrder(order, ts)
    requires price > 0.0 && 0.0 < ratio < 1.0
    ensures var d := DrawsAt(ts, mk, price, ratio, order);
      && Admissible(ts, mk, d) && Liquidity(ts, d) == TotalSupply(ts)
      && Evaluate(Liquidity(ts, d), d.root) == Finite(price)
  {
    var d := DrawsAt(ts, mk, price, ratio, order);
    var now, before := Pow(price, ELASTICITY), Pow(mk.price, ELASTICITY);
    PowPositive(price, ELASTICITY);
    PowPositive(mk.price, ELASTICITY);
    GrowthSolvesCurve(now, TotalSupply(ts), before, mk.liquidity);
    assert Demand(mk.liquidity, d.growth) == mk.liquidity * d.growth;
  }

  lemma GrowthSolvesCurve(now: real, supply: real, before: real, liquidity: real)
    requires now > 0.0 && supply > 0.0 && before > 0.0 && liquidity > 0.0
    ensures before * liquidity > 0.0
    ensures var growth := now * supply / (before * liquidity);
      growth > 0.0 && now * supply == before * (liquidity * growth)
  {
    SignOfProduct(now, supply);
    SignOfProduct(before, liquidity);
    var top, bottom := now * supply, before * liquidity;
    var growth := top / bottom;
    Quotient(top, bottom);
    SignOfProduct(growth, bottom);
    Reassociate(growth, before, liquidity);
  }

  // At a fraction q of the floor price, the floor's target supply is the fraction q^20 of the pool.
  lemma TargetBelowFloor(ts: seq<Trove>, mk: Market, d: MarketDraws, q: real)
    requires Admissible(ts, mk, d) && Liquidity(ts, d) > 0.0
    requires FloorPrice(mk) > 0.0 && q > 0.0 && d.root == FloorPrice(mk) * q
    ensures LiquidityAt(FloorPrice(mk), mk.price, Demand(mk.liquidity, d.growth))
      == Pow(q, 20) * Liquidity(ts, d)
  {
    var floor, liquidity, demand := FloorPrice(mk), Liquidity(ts, d), Demand(mk.liquidity, d.growth);
    DemandPositive(ts, mk, d);
    PowProduct(d.root, floor, q, ELASTICITY);
    var target := Pow(q, ELASTICITY) * liquidity;
    ProductOfThree(Pow(floor, ELASTICITY), Pow(q, ELASTICITY), liquidity, Pow(d.root, ELASTICITY));
    TargetIsInverse(floor, target, mk.price, demand);
  }

  // There the cap binds exactly when the drawn ratio is at most 1 - q^20.
  lemma CappedBelowFloor(ts: seq<Trove>, mk: Market, d: MarketDraws, q: real)
    requires Admissible(ts, mk, d) && Liquidity(ts, d) > 0.0
    requires FloorPrice(mk) > 0.0 && q > 0.0 && d.root == FloorPrice(mk) * q
    ensures Capped(ts, mk, d) <==> d.redemptionRatio <= 1.0 - Pow(q, 20)
  {
    hide OnCurve, LiquidityAt, Demand, Cap, Pow;
    TargetBelowFloor(ts, mk, d, q);
    var target := LiquidityAt(FloorPrice(mk), mk.price, Demand(mk.liquidity, d.growth));
    GapAgainstCap(Liquidity(ts, d), target, Pow(q, ELASTICITY), d.redemptionRatio);
  }

  lemma GapAgainstCap(liquidity: real, target: real, part: real, ratio: real)
    requires liquidity > 0.0 && target == part * liquidity
    ensures liquidity - target >= Cap(ratio, liquidity) <==> ratio <= 1.0 - part
  {
    DifferenceScaled(part, 1.0, liquidity);
    FactorOrder(liquidity, 1.0 - part, ratio);
  }

  // At the fraction q of the floor price the ratio 1 - q is capped, so any part of the debt can be
  // the amount redeemed.
  lemma CappedIsReachable(ts: seq<Trove>, mk: Market, q: real, order: seq<Trove>)
    requires MarketReady(mk) && mk.rateRedemption < 1.0
    requires AllSound(ts) && TotalSupply(ts) > 0.0 && AscendingOrder(order, ts) && 0.0 < q < 1.0
    ensures var d := DrawsAt(ts, mk, FloorPrice(mk) * q, 1.0 - q, order);
      && Admissible(ts, mk, d) && AtFloor(ts, mk, d) && Capped(ts, mk, d) && Liquidity(ts, d) == TotalSupply(ts)
      && FloorPool(ts, mk, d) == Cap(1.0 - q, TotalSupply(ts))
  {
    hide OnCurve, LiquidityAt, Demand, Cap, Pow;
    PowBelowBase(q, ELASTICITY);
    BelowFloor(ts, mk, q, 1.0 - q, order);
  }

  // A shallow fall with a large ratio leaves the cap slack.
  lemma UncappedIsReachable(ts: seq<Trove>, mk: Market, q: real, order: seq<Trove>)
    requires MarketReady(mk) && mk.rateRedemption < 1.0
    requires AllSound(ts) && TotalSupply(ts) > 0.0 && AscendingOrder(order, ts) && 0.0 < q < 1.0
    ensures var d := DrawsAt(ts, mk, FloorPrice(mk) * q, 1.0 - 0.5 * Pow(q, ELASTICITY), order);
      Admissible(ts, mk, d) && AtFloor(ts, mk, d) && !Capped(ts, mk, d)
  {
    hide OnCurve, LiquidityAt, Demand, Cap, Pow;
    PowPositive(q, ELASTICITY);
    PowBelowBase(q, ELASTICITY);
    BelowFloor(ts, mk, q, 1.0 - 0.5 * Pow(q, ELASTICITY), order);
  }

  lemma BelowFloor(ts: seq<Trove>, mk: Market, q: real, ratio: real, order: seq<Trove>)
    requires MarketReady(mk) && mk.rateRedemption < 1.0
    requires AllSound(ts) && TotalSupply(ts) > 0.0 && AscendingOrder(order, ts) && 0.0 < ratio < 1.0 && 0.0 < q < 1.0
    ensures var d := DrawsAt(ts, mk, FloorPrice(mk) * q, ratio, order);
      && Admissible(ts, mk, d) && AtFloor(ts, mk, d) && Liquidity(ts, d) == TotalSupply(ts)
      && d.redemptionRatio == ratio
      && (Capped(ts, mk, d) <==> ratio <= 1.0 - Pow(q, ELASTICITY))
  {
    var price := FloorPrice(mk) * q;
    ProperFraction(q, FloorPrice(mk), price);
    EveryPriceIsReachable(ts, mk, price, ratio, order);
    CappedBelowFloor(ts, mk, DrawsAt(ts, mk, price, ratio, order), q);
  }

  lemma FractionOf(part: real, whole: real) returns (q: real)
    requires 0.0 < part < whole
    ensures 0.0 < q < 1.0 && whole * q == part
  {
    q := part / whole;
    Quotient(part, whole);
    SignOfProduct(q, whole);
    FactorOrder(whole, q, 1.0);
  }

  lemma CappedOutcome(ts: seq<Trove>, mk: Market, d: MarketDraws, nOpen: nat)
    requires Admissible(ts, mk, d) && AtFloor(ts, mk, d) && FloorPrice(mk) > 0.0 && Capped(ts, mk, d)
    ensures var o := Stabilize(ts, mk, d, nOpen); o.price == Finite(d.root) && o.redemptionPool > 0.0
  {
    hide OnCurve, LiquidityAt, Demand, Cap, Fee, Redeem, CeilingTrove;
    RootsAgree(ts, mk, d);
    OneBranch(ts, mk, d, nOpen);
  }

  // Any price below the floor can be what a step ends at, by a capped redemption.
  lemma CappedPrice(ts: seq<Trove>, mk: Market, price: real, order: seq<Trove>, nOpen: nat)
    returns (d: MarketDraws)
    requires MarketReady(mk) && 0.0 < price < FloorPrice(mk)
    requires AllSound(ts) && TotalSupply(ts) > 0.0 && AscendingOrder(order, ts)
    ensures Admissible(ts, mk, d) && Liquidity(ts, d) > 0.0
    ensures var o := Stabilize(ts, mk, d, nOpen); o.price == Finite(price) && o.redemptionPool > 0.0
  {
    hide Admissible, AtFloor, Capped, FloorPool, Stabilize;
    var q := FractionOf(price, FloorPrice(mk));
    CappedIsReachable(ts, mk, q, order);
    d := DrawsAt(ts, mk, FloorPrice(mk) * q, 1.0 - q, order);
    CappedOutcome(ts, mk, d, nOpen);
  }

  lemma CapOf(ratio: real, liquidity: real, cap: real)
    requires cap == ratio * liquidity
    ensures Cap(ratio, liquidity) == cap
  {
  }

  lemma {:induction false} PowBelowBase(q: real, n: nat)
    requires 0.0 < q < 1.0 && n > 0
    ensures Pow(q, n) <= q
  {
    if n == 1 {
    } else {
      PowBelowBase(q, n - 1);
      PowPositive(q, n - 1);
      ProperFraction(q, Pow(q, n - 1), Pow(q, n));
    }
  }
}
