// `price_stabilizer`: evaluate the price curve at the table's supply, then let ceiling
// arbitrageurs mint, or floor arbitrageurs redeem, against it.

module Stabilizer {
  import opened Arithmetic
  import opened Troves
  import opened Redemption
  import opened RealPower
  import opened PriceCurve

  // A price as floating point sees it. A negative liquidity pool has no real twentieth root, and
  // an empty one an infinite price; comparisons with a price that is not a number are false.
  datatype CurvePrice = NotANumber | Infinite | Finite(value: real) {
    predicate Above(x: real)
    {
      match this
      case NotANumber => false
      case Infinite => true
      case Finite(v) => v > x
    }

    predicate Under(x: real)
    {
      Finite? && value < x
    }
  }

  // The previous row of the record and the globals the stabilizer reads.
  datatype Market = Market(
    price: real,
    liquidity: real,
    rateIssuance: real,
    rateRedemption: real,
    etherPrice: real)

  // What the stabilizer takes from outside: the stability pool, the drawn growth of the demand for
  // liquidity (drift plus shock) and redemption ratio, the values of its two twentieth roots, and
  // the order in which its sort returns the table.
  datatype MarketDraws = MarketDraws(
    stability: real,
    growth: real,
    root: real,
    floorRoot: real,
    redemptionRatio: real,
    order: seq<Trove>)

  datatype Outcome = Outcome(
    price: CurvePrice,
    liquidity: real,
    troves: seq<Trove>,
    issuance: real,
    redemptionFee: real,
    nRedempt: nat,
    redemptionPool: real,
    nOpen: nat)

  // The liquidity demanded at the previous price.
  function Demand(previous: real, growth: real): real
  {
    previous * growth
  }

  function Liquidity(ts: seq<Trove>, d: MarketDraws): real
  {
    TotalSupply(ts) - d.stability
  }

  // The most that floor arbitrageurs redeem in one step.
  function Cap(ratio: real, liquidity: real): real
  {
    ratio * liquidity
  }

  function Fee(rate: real, amount: real): real
  {
    rate * amount
  }

  function CeilingPrice(mk: Market): real
  {
    1.1 + mk.rateIssuance
  }

  function FloorPrice(mk: Market): real
  {
    1.0 - mk.rateRedemption
  }

  // `previous * (liquidity / demand) ** (1 / delta)`, given the value of the root.
  function Evaluate(liquidity: real, root: real): CurvePrice
  {
    if liquidity < 0.0 then NotANumber else if liquidity == 0.0 then Infinite else Finite(root)
  }

  ghost predicate IsCurveRoot(root: real, ts: seq<Trove>, mk: Market, d: MarketDraws)
  {
    Liquidity(ts, d) > 0.0 ==> OnCurve(root, Liquidity(ts, d), mk.price, Demand(mk.liquidity, d.growth))
  }

  // The market the recorded rows always leave behind.
  ghost predicate MarketReady(mk: Market)
  {
    && mk.price > 0.0 && mk.liquidity > 0.0 && mk.etherPrice > 0.0
    && mk.rateIssuance >= 0.0 && mk.rateRedemption >= 0.0
  }

  // The ranges of the draws.
  ghost predicate DrawsFit(ts: seq<Trove>, mk: Market, d: MarketDraws)
  {
    && d.stability >= 0.0 && d.growth > 0.0 && 0.0 < d.redemptionRatio < 1.0
    && IsCurveRoot(d.root, ts, mk, d) && IsCurveRoot(d.floorRoot, ts, mk, d)
    && AscendingOrder(d.order, ts)
  }

  ghost predicate Admissible(ts: seq<Trove>, mk: Market, d: MarketDraws)
  {
    MarketReady(mk) && AllSound(ts) && DrawsFit(ts, mk, d)
  }

  lemma DemandPositive(ts: seq<Trove>, mk: Market, d: MarketDraws)
    requires Admissible(ts, mk, d)
    ensures Demand(mk.liquidity, d.growth) > 0.0
  {
  }

  lemma RootOnCurve(ts: seq<Trove>, mk: Market, d: MarketDraws)
    requires Admissible(ts, mk, d) && Liquidity(ts, d) > 0.0
    ensures OnCurve(d.root, Liquidity(ts, d), mk.price, Demand(mk.liquidity, d.growth))
    ensures mk.price > 0.0 && Demand(mk.liquidity, d.growth) > 0.0
  {
  }

  // How far the price moves: it falls by the factor c exactly when the pool is c^20 times the demand,
  // which is the previous pool times the drawn growth. So it rests exactly when the two are equal.
  lemma PriceMoves(ts: seq<Trove>, mk: Market, d: MarketDraws, c: real)
    requires Admissible(ts, mk, d) && Liquidity(ts, d) > 0.0 && c > 0.0
    ensures d.root * c == mk.price <==> TotalSupply(ts) - d.stability == Pow(c, 20) * (mk.liquidity * d.growth)
  {
    hide Admissible, OnCurve, Pow, Demand, TotalSupply;
    RootOnCurve(ts, mk, d);
    CurveScales(d.root, Liquidity(ts, d), mk.price, Demand(mk.liquidity, d.growth), c);
    DemandScaled(Pow(c, 20), mk.liquidity, d.growth);
  }

  lemma DemandScaled(factor: real, previous: real, growth: real)
    ensures factor * Demand(previous, growth) == factor * (previous * growth)
  {
  }

  lemma PriceRests(ts: seq<Trove>, mk: Market, d: MarketDraws)
    requires Admissible(ts, mk, d) && Liquidity(ts, d) > 0.0
    ensures d.root == mk.price <==> TotalSupply(ts) - d.stability == mk.liquidity * d.growth
  {
    hide Admissible, Pow, TotalSupply;
    PriceMoves(ts, mk, d, 1.0);
    PowOfOne(20);
  }

  // ----- The two branches -----

  predicate AtCeiling(ts: seq<Trove>, mk: Market, d: MarketDraws)
  {
    Evaluate(Liquidity(ts, d), d.root).Above(CeilingPrice(mk))
  }

  predicate AtFloor(ts: seq<Trove>, mk: Market, d: MarketDraws)
  {
    Evaluate(Liquidity(ts, d), d.root).Under(FloorPrice(mk))
  }

  // The supply minted at the ceiling: `supply_wanted - supply`.
  function CeilingGap(ts: seq<Trove>, mk: Market, d: MarketDraws): real
    requires CeilingPrice(mk) > 0.0
  {
    d.stability + LiquidityAt(CeilingPrice(mk), mk.price, Demand(mk.liquidity, d.growth)) - TotalSupply(ts)
  }

  function CeilingTrove(mk: Market, supply: real): Trove
    requires mk.etherPrice != 0.0
  {
    Trove(mk.etherPrice, supply * CR_MINIMUM / mk.etherPrice, CR_MINIMUM, supply, 0.1, CR_MINIMUM)
  }

  // The supply to redeem at the floor: `supply - supply_target`.
  function FloorGap(ts: seq<Trove>, mk: Market, d: MarketDraws): real
    requires FloorPrice(mk) > 0.0
  {
    TotalSupply(ts) - (d.stability + LiquidityAt(FloorPrice(mk), mk.price, Demand(mk.liquidity, d.growth)))
  }

  // Redemption is capped at a drawn fraction of the liquidity pool.
  predicate Capped(ts: seq<Trove>, mk: Market, d: MarketDraws)
    requires FloorPrice(mk) > 0.0
  {
    FloorGap(ts, mk, d) >= Cap(d.redemptionRatio, Liquidity(ts, d))
  }

  function FloorPool(ts: seq<Trove>, mk: Market, d: MarketDraws): real
    requires FloorPrice(mk) > 0.0
  {
    if Capped(ts, mk, d) then Cap(d.redemptionRatio, Liquidity(ts, d)) else FloorGap(ts, mk, d)
  }

  // Minting is positive: above the ceiling, or with nothing in the pool at all, more is wanted
  // than there is.
  lemma CeilingGapPositive(ts: seq<Trove>, mk: Market, d: MarketDraws)
    requires Admissible(ts, mk, d) && AtCeiling(ts, mk, d)
    ensures CeilingGap(ts, mk, d) > 0.0
  {
    var liquidity, demand := Liquidity(ts, d), Demand(mk.liquidity, d.growth);
    DemandPositive(ts, mk, d);
    TargetIsInverse(CeilingPrice(mk), liquidity, mk.price, demand);
    if liquidity > 0.0 {
      PriceAgainstTarget(d.root, liquidity, CeilingPrice(mk), mk.price, demand);
    }
  }

  // Below the floor the gap is positive, because the curve falls.
  lemma FloorGapPositive(ts: seq<Trove>, mk: Market, d: MarketDraws)
    requires Admissible(ts, mk, d) && AtFloor(ts, mk, d)
    ensures FloorPrice(mk) > 0.0 && Liquidity(ts, d) > 0.0
    ensures FloorGap(ts, mk, d) > 0.0
  {
    DemandPositive(ts, mk, d);
    PriceAgainstTarget(d.root, Liquidity(ts, d), FloorPrice(mk), mk.price, Demand(mk.liquidity, d.growth));
  }

  lemma CapFits(ratio: real, liquidity: real)
    requires 0.0 < ratio < 1.0 && liquidity > 0.0
    ensures 0.0 < Cap(ratio, liquidity) < liquidity
  {
    ProperFraction(ratio, liquidity, Cap(ratio, liquidity));
  }

  // What the source leaves unchecked: the pool redeemed is positive, within the cap, and smaller
  // than the debt of the table, so the redemption loop always finds a trove at the head.
  lemma FloorPoolFits(ts: seq<Trove>, mk: Market, d: MarketDraws)
    requires Admissible(ts, mk, d) && AtFloor(ts, mk, d)
    ensures FloorPrice(mk) > 0.0 && Liquidity(ts, d) > 0.0
    ensures FloorGap(ts, mk, d) > 0.0
    ensures 0.0 < FloorPool(ts, mk, d) <= Cap(d.redemptionRatio, Liquidity(ts, d)) < Liquidity(ts, d)
    ensures FloorPool(ts, mk, d) <= FloorGap(ts, mk, d)
    ensures FloorPool(ts, mk, d) in {FloorGap(ts, mk, d), Cap(d.redemptionRatio, Liquidity(ts, d))}
    ensures TotalSupply(d.order) == TotalSupply(ts) && Redeemable(d.order, FloorPool(ts, mk, d))
  {
    hide OnCurve, LiquidityAt, Cap, Demand;
    FloorGapPositive(ts, mk, d);
    CapFits(d.redemptionRatio, Liquidity(ts, d));
    OrderIsTable(d.order, ts);
  }

  // ----- The whole step -----

  // The supply minted, and the supply redeemed, by the stabilizer.
  function Minted(ts: seq<Trove>, mk: Market, d: MarketDraws): real
    requires Admissible(ts, mk, d)
  {
    if AtCeiling(ts, mk, d) then CeilingGap(ts, mk, d) else 0.0
  }

  function Redeemed(ts: seq<Trove>, mk: Market, d: MarketDraws): real
    requires Admissible(ts, mk, d)
  {
    if AtFloor(ts, mk, d) then
      FloorGapPositive(ts, mk, d);
      FloorPool(ts, mk, d)
    else 0.0
  }

  function Stabilize(ts: seq<Trove>, mk: Market, d: MarketDraws, nOpen: nat): Outcome
    requires Admissible(ts, mk, d)
  {
    var issuance := Fee(mk.rateIssuance, Minted(ts, mk, d));
    var pool := Redeemed(ts, mk, d);
    var fee := Fee(mk.rateRedemption, pool);
    if AtCeiling(ts, mk, d) then
      Outcome(Finite(CeilingPrice(mk)), LiquidityAt(CeilingPrice(mk), mk.price, Demand(mk.liquidity, d.growth)),
              ts + [CeilingTrove(mk, CeilingGap(ts, mk, d))], issuance, fee, 0, pool, nOpen + 1)
    else if AtFloor(ts, mk, d) then
      FloorPoolFits(ts, mk, d);
      Outcome(if Capped(ts, mk, d) then Evaluate(Liquidity(ts, d), d.floorRoot) else Finite(FloorPrice(mk)),
              Liquidity(ts, d), Redeem(d.order, pool, mk.etherPrice),
              issuance, fee, NumberRedeemed(d.order, pool), pool, nOpen)
    else
      Outcome(Evaluate(Liquidity(ts, d), d.root), Liquidity(ts, d), ts, issuance, fee, 0, pool, nOpen)
  }

  // The curve is evaluated twice; both evaluations give the same price.
  lemma RootsAgree(ts: seq<Trove>, mk: Market, d: MarketDraws)
    requires Admissible(ts, mk, d) && Liquidity(ts, d) > 0.0
    ensures d.root == d.floorRoot > 0.0
  {
    DemandPositive(ts, mk, d);
    CurveFalls(d.root, Liquidity(ts, d), d.floorRoot, Liquidity(ts, d), mk.price, Demand(mk.liquidity, d.growth));
  }

  // The price corridor. Unless the pool is negative, the price is a positive number, at most the
  // ceiling; it is below the floor exactly when a redemption was capped, and is then the curve
  // price before redemption, with exactly the drawn fraction of the pool redeemed.
  lemma PriceCorridor(ts: seq<Trove>, mk: Market, d: MarketDraws, nOpen: nat)
    requires Admissible(ts, mk, d)
    ensures var o := Stabilize(ts, mk, d, nOpen);
      && (o.price.Finite? <==> Liquidity(ts, d) >= 0.0)
      && (o.price.Finite? ==>
        && 0.0 < o.price.value <= CeilingPrice(mk)
        && (o.price.value < FloorPrice(mk) <==> AtFloor(ts, mk, d) && FloorPrice(mk) > 0.0 && Capped(ts, mk, d))
        && (o.price.value < FloorPrice(mk) ==>
              o.price.value == d.root && o.redemptionPool == Cap(d.redemptionRatio, Liquidity(ts, d))))
  {
    hide OnCurve, LiquidityAt, Cap, Demand, Fee, CeilingTrove, Redeem;
    if Liquidity(ts, d) > 0.0 {
      RootsAgree(ts, mk, d);
    }
    if AtFloor(ts, mk, d) {
      FloorPoolFits(ts, mk, d);
    }
  }

  // At most one kind of arbitrage happens in a step, and each moves the price to its own bound.
  lemma OneBranch(ts: seq<Trove>, mk: Market, d: MarketDraws, nOpen: nat)
    requires Admissible(ts, mk, d)
    ensures var o := Stabilize(ts, mk, d, nOpen);
      && (Minted(ts, mk, d) == 0.0 || o.redemptionPool == 0.0)
      && (Minted(ts, mk, d) > 0.0 <==> AtCeiling(ts, mk, d))
      && (Minted(ts, mk, d) > 0.0 ==> o.price == Finite(CeilingPrice(mk)))
      && (o.redemptionPool > 0.0 <==> AtFloor(ts, mk, d))
      && (o.redemptionPool > 0.0 ==> o.price.Finite? && o.price.value <= FloorPrice(mk))
      && Minted(ts, mk, d) >= 0.0 && o.redemptionPool >= 0.0
  {
    hide OnCurve, LiquidityAt, Cap, Demand, Fee, CeilingTrove, Redeem;
    if AtCeiling(ts, mk, d) {
      CeilingGapPositive(ts, mk, d);
    } else if AtFloor(ts, mk, d) {
      FloorPoolFits(ts, mk, d);
      RootsAgree(ts, mk, d);
    }
  }

  // Which recorded points lie on the step's own curve. With the redeemed supply taken off the
  // recorded pool, every step ends on the curve unless its redemption was capped. The source
  // records the pool without taking it off, and such points are off the curve exactly when a
  // redemption reached the floor.
  lemma EndsOnCurve(ts: seq<Trove>, mk: Market, d: MarketDraws, nOpen: nat)
    requires Admissible(ts, mk, d) && Liquidity(ts, d) >= 0.0
    ensures Stabilize(ts, mk, d, nOpen).price.Finite?
    ensures AtFloor(ts, mk, d) ==> FloorPrice(mk) > 0.0
    ensures var o := Stabilize(ts, mk, d, nOpen);
      && (OnCurve(o.price.value, o.liquidity - o.redemptionPool, mk.price, Demand(mk.liquidity, d.growth)) <==>
            !(AtFloor(ts, mk, d) && Capped(ts, mk, d)))
      && (OnCurve(o.price.value, o.liquidity, mk.price, Demand(mk.liquidity, d.growth)) <==>
            !(AtFloor(ts, mk, d) && !Capped(ts, mk, d)))
  {
    hide OnCurve, LiquidityAt, Cap, Demand, Fee, CeilingTrove, Redeem;
    var o, demand := Stabilize(ts, mk, d, nOpen), Demand(mk.liquidity, d.growth);
    PriceCorridor(ts, mk, d, nOpen);
    DemandPositive(ts, mk, d);
    if AtFloor(ts, mk, d) {
      FloorPoolFits(ts, mk, d);
      RootsAgree(ts, mk, d);
    }
    TargetIsInverse(o.price.value, o.liquidity, mk.price, demand);
    TargetIsInverse(o.price.value, o.liquidity - o.redemptionPool, mk.price, demand);
  }

  // The pool identity: what is in circulation is what the two pools hold, less what was redeemed.
  lemma PoolIdentity(ts: seq<Trove>, mk: Market, d: MarketDraws, nOpen: nat)
    requires Admissible(ts, mk, d)
    ensures var o := Stabilize(ts, mk, d, nOpen);
      && TotalSupply(o.troves) == o.liquidity + d.stability - o.redemptionPool
      && TotalSupply(o.troves) == TotalSupply(ts) + Minted(ts, mk, d) - o.redemptionPool
      && |o.troves| == |ts| + (o.nOpen - nOpen) - o.nRedempt
  {
    hide OnCurve, LiquidityAt, Cap, Demand, Fee, Redeem;
    if AtCeiling(ts, mk, d) {
      TotalSupplyAppend(ts, CeilingTrove(mk, CeilingGap(ts, mk, d)));
    } else if AtFloor(ts, mk, d) {
      FloorPoolFits(ts, mk, d);
      RedeemExact(d.order, FloorPool(ts, mk, d), mk.etherPrice);
      OrderIsTable(d.order, ts);
    }
  }

  // A step ends with a negative pool exactly if it started with one. Otherwise the pool and the
  // supply are positive.
  lemma PoolsStayPositive(ts: seq<Trove>, mk: Market, d: MarketDraws, nOpen: nat)
    requires Admissible(ts, mk, d)
    ensures var o := Stabilize(ts, mk, d, nOpen);
      && (o.liquidity < 0.0 <==> Liquidity(ts, d) < 0.0)
      && (o.liquidity >= 0.0 ==> o.liquidity > 0.0 && TotalSupply(o.troves) > 0.0)
  {
    hide OnCurve, LiquidityAt, Cap, Demand, Fee, CeilingTrove, Redeem;
    PoolIdentity(ts, mk, d, nOpen);
    DemandPositive(ts, mk, d);
    if AtCeiling(ts, mk, d) {
      TargetIsInverse(CeilingPrice(mk), 0.0, mk.price, Demand(mk.liquidity, d.growth));
    } else if AtFloor(ts, mk, d) {
      FloorPoolFits(ts, mk, d);
    }
  }

  // `pool / supply <= ratio / (1 - ratio)`, for a supply from which the pool has been redeemed.
  ghost predicate ShareWithin(pool: real, supply: real, ratio: real)
  {
    pool * (1.0 - ratio) <= ratio * supply
  }

  // What is redeemed is within the drawn ratio of the supply before the redemption.
  lemma RedeemedShare(ts: seq<Trove>, mk: Market, d: MarketDraws, nOpen: nat)
    requires Admissible(ts, mk, d) && Liquidity(ts, d) >= 0.0
    ensures var o := Stabilize(ts, mk, d, nOpen);
      ShareWithin(o.redemptionPool, TotalSupply(o.troves), d.redemptionRatio)
  {
    hide OnCurve, LiquidityAt, Cap, Demand, Fee, CeilingTrove, Redeem, ShareWithin;
    var o := Stabilize(ts, mk, d, nOpen);
    PoolIdentity(ts, mk, d, nOpen);
    PoolsStayPositive(ts, mk, d, nOpen);
    if AtFloor(ts, mk, d) {
      FloorPoolFits(ts, mk, d);
      ShareOfRemainder(d.redemptionRatio, o.redemptionPool, o.liquidity, d.stability, TotalSupply(o.troves));
    } else {
      ShareOfNothing(d.redemptionRatio, TotalSupply(o.troves));
    }
  }

  lemma ShareOfRemainder(ratio: real, pool: real, liquidity: real, stability: real, supply: real)
    requires 0.0 < ratio && pool <= Cap(ratio, liquidity) && stability >= 0.0
    requires supply == liquidity + stability - pool
    ensures ShareWithin(pool, supply, ratio)
  {
    assert ratio * stability >= 0.0;
    assert ratio * supply == ratio * liquidity + ratio * stability - ratio * pool;
  }

  lemma ShareOfNothing(ratio: real, supply: real)
    requires ratio > 0.0 && supply > 0.0
    ensures ShareWithin(0.0, supply, ratio)
  {
  }

  // A trove minted at the ceiling: its true, chosen and recorded ratios are all 1.1.
  ghost predicate MintedAt(t: Trove, etherPrice: real, supply: real)
  {
    && t.etherPrice == etherPrice && t.supply == supply && t.inattention == 0.1
    && t.crInitial == t.crCurrent == 1.1 && Fresh(t)
  }

  lemma CeilingTroveKeeps(mk: Market, supply: real)
    requires mk.etherPrice > 0.0 && supply > 0.0
    ensures Sound(CeilingTrove(mk, supply)) && Backed(CeilingTrove(mk, supply), mk.etherPrice)
    ensures MintedAt(CeilingTrove(mk, supply), mk.etherPrice, supply)
  {
    var t := CeilingTrove(mk, supply);
    Quotient(supply * CR_MINIMUM, mk.etherPrice);
    SignOfProduct(t.etherQuantity, mk.etherPrice);
    RatioMeansBacked(t.(crCurrent := TrueRatio(t)));
    assert TrueRatio(t) * supply == CR_MINIMUM * supply;
    FactorOrder(supply, TrueRatio(t), CR_MINIMUM);
    FactorOrder(supply, CR_MINIMUM, TrueRatio(t));
  }

  // What arbitrageurs do to the table: at the ceiling one minted trove joins it, at the floor the
  // sorted table is redeemed, and otherwise it stays as it is.
  lemma ArbitrageTable(ts: seq<Trove>, mk: Market, d: MarketDraws, nOpen: nat)
    requires Admissible(ts, mk, d)
    ensures var o := Stabilize(ts, mk, d, nOpen);
      && (AtCeiling(ts, mk, d) ==>
            |o.troves| == |ts| + 1 && o.troves[..|ts|] == ts &&
            MintedAt(o.troves[|ts|], mk.etherPrice, Minted(ts, mk, d)))
      && (AtFloor(ts, mk, d) ==>
            Redeemable(d.order, o.redemptionPool) && o.nRedempt == NumberRedeemed(d.order, o.redemptionPool) &&
            o.troves == Redeem(d.order, o.redemptionPool, mk.etherPrice))
      && (!AtCeiling(ts, mk, d) && !AtFloor(ts, mk, d) ==> o.troves == ts && o.nRedempt == 0)
      && (AtCeiling(ts, mk, d) ==> o.nRedempt == 0)
  {
    hide OnCurve, LiquidityAt, Cap, Demand, Fee, CeilingTrove, Redeem, MintedAt;
    if AtCeiling(ts, mk, d) {
      CeilingGapPositive(ts, mk, d);
      CeilingTroveKeeps(mk, CeilingGap(ts, mk, d));
    } else if AtFloor(ts, mk, d) {
      FloorPoolFits(ts, mk, d);
    }
  }

  // Neither branch leaves a trove unsound or under-collateralized.
  lemma StabilizeKeeps(ts: seq<Trove>, mk: Market, d: MarketDraws, nOpen: nat)
    requires Admissible(ts, mk, d) && AllBacked(ts, mk.etherPrice)
    ensures AllSound(Stabilize(ts, mk, d, nOpen).troves)
    ensures AllBacked(Stabilize(ts, mk, d, nOpen).troves, mk.etherPrice)
  {
    if AtCeiling(ts, mk, d) {
      CeilingGapPositive(ts, mk, d);
      CeilingTroveKeeps(mk, CeilingGap(ts, mk, d));
    } else if AtFloor(ts, mk, d) {
      FloorPoolFits(ts, mk, d);
      OrderIsTable(d.order, ts);
      forall i | 0 <= i < |d.order|
        ensures Sound(d.order[i]) && Backed(d.order[i], mk.etherPrice)
      {
        assert d.order[i] in ts;
      }
      RedeemKeeps(d.order, FloorPool(ts, mk, d), mk.etherPrice);
    }
  }

  // At a redemption rate of 1 or more the floor is not positive, so nothing is redeemed.
  lemma NoRedemptionAtFullRate(ts: seq<Trove>, mk: Market, d: MarketDraws, nOpen: nat)
    requires Admissible(ts, mk, d) && mk.rateRedemption >= 1.0
    ensures Stabilize(ts, mk, d, nOpen).redemptionPool == 0.0
  {
    if AtFloor(ts, mk, d) {
      RootsAgree(ts, mk, d);
    }
  }
}
