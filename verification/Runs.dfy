// What one step does to the record and the debt, and what every run of the simulation keeps.

module Runs {
  import opened Arithmetic
  import opened Troves
  import opened Liquidation
  import opened Closing
  import opened Adjusting
  import opened Opening
  import opened Redemption
  import opened RealPower
  import opened PriceCurve
  import opened Stabilizer
  import opened Reachability
  import opened Machine

  // ----- One step -----

  // The step records a sound row that follows the last one, or records nothing.
  lemma RowIsSound(s: State, d: Draws)
    requires Inv(s) && s.running && Admits(s, d) && Cleared(s, d).liquidity >= 0.0
    ensures RowSound(RowOf(s, d)) && InCorridor(RowOf(s, d))
    ensures TotalSupply(Cleared(s, d).troves) > 0.0
  {
    hide Stabilize, PhasesOf, IssuanceFees, LiquidationGain, Fee;
    MarketIsReady(s, d);
    RateNonNegative(s);
    var offered, mk, nOpen := PhasesOf(s.troves, d).Offered(), MarketOf(s, d), |d.openings|;
    PriceCorridor(offered, mk, d.market, nOpen);
    OneBranch(offered, mk, d.market, nOpen);
    PoolIdentity(offered, mk, d.market, nOpen);
    PoolsStayPositive(offered, mk, d.market, nOpen);
    StabilizerFee(offered, mk, d.market, nOpen);
  }

  lemma StabilizerFee(ts: seq<Trove>, mk: Market, d: MarketDraws, nOpen: nat)
    requires Admissible(ts, mk, d)
    ensures var o := Stabilize(ts, mk, d, nOpen);
      && o.redemptionFee == Fee(mk.rateRedemption, o.redemptionPool)
      && o.issuance == Fee(mk.rateIssuance, Minted(ts, mk, d))
  {
    hide Fee, OnCurve, LiquidityAt, CeilingTrove, Redeem;
  }

  // The trove-count ledger of the step, and what the recorded count columns say about it.
  lemma CountLedger(s: State, d: Draws)
    requires Inv(s) && s.running && Admits(s, d)
    ensures var ph, o := PhasesOf(s.troves, d), Cleared(s, d);
      && |o.troves| == |s.troves| - |Failing(ph.marked)| - |d.drops| + o.nOpen - o.nRedempt
      && (o.liquidity >= 0.0 ==> CountsBalance(Last(s), RowOf(s, d)))
      && (o.liquidity >= 0.0 ==> (RowOf(s, d).nClose == -999 <==> |ph.remaining| < |d.drops|))
  {
    hide Stabilize, IssuanceFees, LiquidationGain, Fee;
    var ph := PhasesOf(s.troves, d);
    MarketIsReady(s, d);
    PoolIdentity(ph.Offered(), MarketOf(s, d), d.market, |d.openings|);
    PhaseLedger(s.troves, d);
  }

  lemma StepKeepsInv(s: State, d: Draws)
    requires Inv(s) && s.running && Admits(s, d)
    ensures Inv(Step(s, d))
  {
    hide Stabilize, PhasesOf, IssuanceFees, LiquidationGain, Fee, RowSound, InCorridor, CountsBalance;
    MarketIsReady(s, d);
    var offered, mk := PhasesOf(s.troves, d).Offered(), MarketOf(s, d);
    StabilizeKeeps(offered, mk, d.market, |d.openings|);
    if Cleared(s, d).liquidity >= 0.0 {
      RowIsSound(s, d);
      CountLedger(s, d);
      RateIsRecorded(s, d);
      RecordGrows(s, d);
    }
  }

  lemma RateIsRecorded(s: State, d: Draws)
    requires Inv(s) && s.running && Admits(s, d) && Cleared(s, d).liquidity >= 0.0
    ensures RateFollows(s.policy, Last(s), RowOf(s, d))
  {
    RateNonNegative(s);
  }

  lemma RecordGrows(s: State, d: Draws)
    requires Inv(s) && s.running && Admits(s, d) && Cleared(s, d).liquidity >= 0.0
    requires Follows(s.policy, Last(s), RowOf(s, d))
    ensures RecordSound(s.policy, s.data + [RowOf(s, d)])
  {
    hide Follows, RowOf, InitialRow;
    var data := s.data + [RowOf(s, d)];
    forall k | 1 <= k < |data|
      ensures Follows(s.policy, data[k - 1], data[k])
    {
      if k < |s.data| {
        assert data[k - 1] == s.data[k - 1] && data[k] == s.data[k];
      }
    }
  }

  // The loop stops exactly when the table's debt does not cover the stability pool; the record is
  // then left as it was. Otherwise exactly one row is added, at a positive price.
  lemma StepStops(s: State, d: Draws)
    requires Inv(s) && s.running && Admits(s, d)
    ensures Step(s, d).running <==> TotalSupply(PhasesOf(s.troves, d).Offered()) >= d.market.stability
    ensures Step(s, d).data == if Step(s, d).running then s.data + [RowOf(s, d)] else s.data
    ensures Step(s, d).running <==> Cleared(s, d).liquidity >= 0.0
  {
    hide Stabilize, PhasesOf;
    MarketIsReady(s, d);
    var offered, mk := PhasesOf(s.troves, d).Offered(), MarketOf(s, d);
    PriceCorridor(offered, mk, d.market, |d.openings|);
    PoolsStayPositive(offered, mk, d.market, |d.openings|);
  }

  // The supply that the phases and the stabilizer bring in, less what they take out.
  ghost function NetFlow(s: State, d: Draws): real
    requires Inv(s) && s.running && Admits(s, d)
  {
    MarketIsReady(s, d);
    var ph, mk := PhasesOf(s.troves, d), MarketOf(s, d);
    NetChange(ph.remaining, ph.adjusted) + TotalSupply(ph.entering) + Minted(ph.Offered(), mk, d.market)
    - TotalSupply(Failing(ph.marked)) - TotalSupply(Closed(ph.surviving, d.drops)) - Cleared(s, d).redemptionPool
  }

  // The supply ledger of one step.
  lemma SupplyLedger(s: State, d: Draws)
    requires Inv(s) && s.running && Admits(s, d)
    ensures TotalSupply(Step(s, d).troves) == TotalSupply(s.troves) + NetFlow(s, d)
  {
    hide Stabilize, PhasesOf, RowOf;
    MarketIsReady(s, d);
    PhaseLedger(s.troves, d);
    PoolIdentity(PhasesOf(s.troves, d).Offered(), MarketOf(s, d), d.market, |d.openings|);
  }

  // The recorded issuance fee is the price, times the rate, times all supply minted in the step:
  // the rises in adjusted debt, the new troves, and the ceiling trove. None of them is negative.
  lemma IssuanceFeeIsGrossMinting(s: State, d: Draws)
    requires Inv(s) && s.running && Admits(s, d) && Cleared(s, d).liquidity >= 0.0
    ensures TotalSupply(s.troves) > 0.0 && Admissible(PhasesOf(s.troves, d).Offered(), MarketOf(s, d), d.market)
    ensures var ph, r := PhasesOf(s.troves, d), RowOf(s, d);
      var adjusted := GrossIncrease(ph.remaining, ph.adjusted);
      var entered := TotalSupply(ph.entering);
      var ceiling := Minted(ph.Offered(), MarketOf(s, d), d.market);
      && adjusted >= 0.0 && entered >= 0.0 && ceiling >= 0.0
      && r.issuanceFee == r.priceYusd * Fee(r.baseRate, adjusted + entered + ceiling)
  {
    hide Stabilize, LiquidationGain, PhasesOf, IssuanceFees, Fee, Minted, GrossIncrease, DrawsFit;
    MarketIsReady(s, d);
    var ph, mk := PhasesOf(s.troves, d), MarketOf(s, d);
    OneBranch(ph.Offered(), mk, d.market, |d.openings|);
    GrossIncreaseNonNegative(ph.remaining, ph.adjusted);
    TotalSupplyPositive(ph.entering);
    StabilizerFee(ph.Offered(), mk, d.market, |d.openings|);
    FeesAreMint(s.troves, d, mk.rateIssuance, Cleared(s, d).issuance, Minted(ph.Offered(), mk, d.market));
  }

  lemma FeesAreMint(ts: seq<Trove>, d: Draws, rate: real, stabilizer: real, ceiling: real)
    requires Plays(ts, d) && stabilizer == Fee(rate, ceiling)
    ensures var ph := PhasesOf(ts, d);
      IssuanceFees(ph, d, rate, stabilizer)
        == Fee(rate, GrossIncrease(ph.remaining, ph.adjusted) + TotalSupply(ph.entering) + ceiling)
  {
    hide Fee, GrossIncrease, AdjustFees;
    var ph := PhasesOf(ts, d);
    AdjustFeesAreMint(ph.remaining, d.uniforms, d.ratio, rate);
    FeesAdd(rate, GrossIncrease(ph.remaining, ph.adjusted), TotalSupply(ph.entering), ceiling);
  }

  lemma FeesAdd(rate: real, a: real, b: real, c: real)
    ensures rate * a + Fee(rate, b) + Fee(rate, c) == Fee(rate, a + b + c)
  {
  }

  // A recorded price below the floor comes from a capped redemption and from nothing else. It is
  // then the curve price of the recorded, unreduced pool, and the drawn fraction was redeemed.
  lemma BelowFloorMeansCapped(s: State, d: Draws)
    requires Inv(s) && s.running && Admits(s, d) && Cleared(s, d).liquidity >= 0.0
    ensures TotalSupply(s.troves) > 0.0
    ensures var r, mk := RowOf(s, d), MarketOf(s, d); r.priceYusd < 1.0 - r.baseRate ==>
      && r.redemptionPool == Cap(d.market.redemptionRatio, r.liquidity) > 0.0
      && OnCurve(r.priceYusd, r.liquidity, mk.price, Demand(mk.liquidity, d.market.growth))
  {
    hide Fee, Cap, Demand, OnCurve, LiquidityAt, Redeem, CeilingTrove, PhasesOf, LiquidationGain, IssuanceFees;
    MarketIsReady(s, d);
    var offered, mk := PhasesOf(s.troves, d).Offered(), MarketOf(s, d);
    PriceCorridor(offered, mk, d.market, |d.openings|);
    OneBranch(offered, mk, d.market, |d.openings|);
    EndsOnCurve(offered, mk, d.market, |d.openings|);
  }

  // The pool that the recorded price is the curve price of. The source does not take the redeemed
  // supply off the recorded pool; a price at or above the floor has seen it leave.
  ghost function PricedPool(r: Row): real
  {
    if r.priceYusd < 1.0 - r.baseRate then r.liquidity else r.liquidity - r.redemptionPool
  }

  // What one row says about the draws of its step. Its price is the curve price against the row
  // before. A price below the floor comes from a capped redemption, of the drawn fraction of the
  // recorded pool. A trove more than the draws opened was minted, at the ceiling price, and then
  // nothing was redeemed. Troves are counted as redeemed only if something was.
  ghost predicate Explained(prev: Row, r: Row, d: Draws)
  {
    && r.priceEther == d.etherPrice && r.stability == d.market.stability
    && OnCurve(r.priceYusd, PricedPool(r), prev.priceYusd, Demand(prev.liquidity, d.market.growth))
    && (r.priceYusd < 1.0 - r.baseRate ==>
          r.redemptionPool == Cap(d.market.redemptionRatio, r.liquidity) > 0.0)
    && (r.nRedempt > 0 ==> r.redemptionPool > 0.0)
    && (r.nOpen == |d.openings| ||
          (r.nOpen == |d.openings| + 1 && r.priceYusd == 1.1 + r.baseRate && r.redemptionPool == 0.0))
  }

  lemma RowIsExplained(s: State, d: Draws)
    requires Inv(s) && s.running && Admits(s, d) && Cleared(s, d).liquidity >= 0.0
    ensures Explained(Last(s), RowOf(s, d), d)
  {
    hide Fee, Cap, Demand, OnCurve, LiquidityAt, Redeem, CeilingTrove, PhasesOf, LiquidationGain, IssuanceFees;
    hide AllSound, AllBacked, DrawsFit;
    BelowFloorMeansCapped(s, d);
    MarketIsReady(s, d);
    var offered, mk := PhasesOf(s.troves, d).Offered(), MarketOf(s, d);
    OneBranch(offered, mk, d.market, |d.openings|);
    PriceCorridor(offered, mk, d.market, |d.openings|);
    PoolsStayPositive(offered, mk, d.market, |d.openings|);
    EndsOnCurve(offered, mk, d.market, |d.openings|);
    ArbitrageTable(offered, mk, d.market, |d.openings|);
  }

  // What the remaining columns of the row mean. As many troves are counted as liquidated as were not
  // backed at the new ether price; the gain is the value of the collateral that left the table less
  // the debt that left it, at the previous price; and as many troves are counted as redeemed as the
  // pool redeemed covers, from the front of the sorted table.
  lemma RowRecords(s: State, d: Draws)
    requires Inv(s) && s.running && Admits(s, d) && Cleared(s, d).liquidity >= 0.0
    ensures var r, ph := RowOf(s, d), PhasesOf(s.troves, d);
      && r.nLiquidate == |UnbackedIndices(s.troves, d.etherPrice)|
      && r.liquidationGain == d.etherPrice * (TotalEther(s.troves) - TotalEther(ph.surviving))
           - Last(s).priceYusd * (TotalSupply(s.troves) - TotalSupply(ph.surviving))
      && (r.redemptionPool == 0.0 ==> r.nRedempt == 0)
      && (r.redemptionPool > 0.0 ==>
            && r.nRedempt < |d.market.order|
            && TotalSupply(d.market.order[..r.nRedempt]) <= r.redemptionPool
                 < TotalSupply(d.market.order[..r.nRedempt + 1]))
      && r.nTroves == |Step(s, d).troves| && r.supplyYusd == TotalSupply(Step(s, d).troves)
  {
    hide PhasesOf, IssuanceFees, AllSound, AllBacked, DrawsFit, Stabilize, LiquidationGain, TotalSupply, TotalEther;
    PhasesDo(s.troves, d);
    GainIsRecorded(s.troves, d, Last(s).priceYusd);
    RedeemedIsRecorded(s, d);
  }

  lemma GainIsRecorded(ts: seq<Trove>, d: Draws, price: real)
    requires Plays(ts, d)
    ensures var ph := PhasesOf(ts, d);
      LiquidationGain(Failing(ph.marked), d.etherPrice, price)
        == d.etherPrice * (TotalEther(ts) - TotalEther(ph.surviving))
             - price * (TotalSupply(ts) - TotalSupply(ph.surviving))
  {
    hide PhasesOf, TotalEther, TotalSupply, Failing, AdjustsEach, AllAsDrawn, UnbackedIndices;
    PhasesDo(ts, d);
  }

  lemma RedeemedIsRecorded(s: State, d: Draws)
    requires Inv(s) && s.running && Admits(s, d)
    ensures var o, order := Cleared(s, d), d.market.order;
      && (o.redemptionPool == 0.0 ==> o.nRedempt == 0)
      && (o.redemptionPool > 0.0 ==>
            && o.nRedempt < |order|
            && TotalSupply(order[..o.nRedempt]) <= o.redemptionPool < TotalSupply(order[..o.nRedempt + 1]))
  {
    hide PhasesOf, DrawsFit, Stabilize, AtCeiling, AtFloor, Redeem;
    MarketIsReady(s, d);
    var offered, mk := PhasesOf(s.troves, d).Offered(), MarketOf(s, d);
    OneBranch(offered, mk, d.market, |d.openings|);
    ArbitrageTable(offered, mk, d.market, |d.openings|);
  }

  // ----- No state is stuck, and every branch can occur -----

  // The phases of a step in which nobody is sampled or adjusts and one trove is opened.
  ghost function QuietDraws(s: State, market: MarketDraws): Draws
  {
    Draws(s.etherPrice, [], 0.0, i => 0.0, [Opening(CR_MINIMUM, 1.0, 1.0)], market)
  }

  lemma QuietPhases(s: State, market: MarketDraws)
    requires Inv(s) && s.running
    ensures Plays(s.troves, QuietDraws(s, market))
    ensures TotalSupply(PhasesOf(s.troves, QuietDraws(s, market)).Offered()) > 0.0
    ensures TotalSupply(s.troves) > 0.0 && MarketReady(MarketOf(s, QuietDraws(s, market)))
    ensures MarketOf(s, QuietDraws(s, market)).rateRedemption == NextBaseRate(s)
  {
    LastRowSound(s);
    RateNonNegative(s);
    var ph := PhasesOf(s.troves, QuietDraws(s, market));
    assert ph.Offered() != [];
    TotalSupplyPositive(ph.Offered());
  }

  // The table and the market that clear do not depend on the market draws.
  ghost function QuietTable(s: State): seq<Trove>
    requires Inv(s) && s.running
  {
    QuietPhases(s, MarketDraws(0.0, 1.0, 1.0, 1.0, 0.5, []));
    PhasesOf(s.troves, QuietDraws(s, MarketDraws(0.0, 1.0, 1.0, 1.0, 0.5, []))).Offered()
  }

  ghost function QuietMarket(s: State): (mk: Market)
    requires Inv(s) && s.running
    ensures MarketReady(mk) && TotalSupply(s.troves) > 0.0 && mk.rateRedemption == NextBaseRate(s)
  {
    QuietPhases(s, MarketDraws(0.0, 1.0, 1.0, 1.0, 0.5, []));
    MarketOf(s, QuietDraws(s, MarketDraws(0.0, 1.0, 1.0, 1.0, 0.5, [])))
  }

  lemma QuietStep(s: State, market: MarketDraws)
    requires Inv(s) && s.running && DrawsFit(QuietTable(s), QuietMarket(s), market)
    requires Liquidity(QuietTable(s), market) > 0.0
    ensures Admits(s, QuietDraws(s, market)) && Step(s, QuietDraws(s, market)).running
    ensures Admissible(QuietTable(s), QuietMarket(s), market)
    ensures Cleared(s, QuietDraws(s, market)) == Stabilize(QuietTable(s), QuietMarket(s), market, 1)
  {
    hide DrawsFit, Stabilize;
    var d := QuietDraws(s, market);
    QuietPhases(s, market);
    assert PhasesOf(s.troves, d).Offered() == QuietTable(s);
    assert MarketOf(s, d) == QuietMarket(s);
    StepStops(s, d);
  }

  lemma QuietRow(s: State, market: MarketDraws)
    requires Inv(s) && s.running && DrawsFit(QuietTable(s), QuietMarket(s), market)
    requires Liquidity(QuietTable(s), market) > 0.0
    ensures Admits(s, QuietDraws(s, market)) && Step(s, QuietDraws(s, market)).running
    ensures Cleared(s, QuietDraws(s, market)).liquidity >= 0.0
    ensures Admissible(QuietTable(s), QuietMarket(s), market)
    ensures var o, r := Stabilize(QuietTable(s), QuietMarket(s), market, 1), RowOf(s, QuietDraws(s, market));
      && o.price == Finite(r.priceYusd) && r.redemptionPool == o.redemptionPool && r.nOpen == o.nOpen
      && r.baseRate == QuietMarket(s).rateRedemption == QuietMarket(s).rateIssuance
  {
    hide DrawsFit, Stabilize, PhasesOf, IssuanceFees, LiquidationGain;
    QuietStep(s, market);
    StepStops(s, QuietDraws(s, market));
  }

  // From every running state, every price at or above the floor can be what the curve gives: it is
  // recorded if it is within the corridor, and a trove is minted at the ceiling if it is above.
  lemma StepIsPossible(s: State, price: real) returns (d: Draws)
    requires Inv(s) && s.running && price > 0.0 && price >= FloorPrice(QuietMarket(s))
    ensures Admits(s, d) && Step(s, d).running && Cleared(s, d).liquidity >= 0.0
    ensures var r := RowOf(s, d);
      && r.redemptionPool == 0.0
      && (if price > 1.1 + r.baseRate then r.nOpen == |d.openings| + 1 && r.priceYusd == 1.1 + r.baseRate
          else r.nOpen == |d.openings| && r.priceYusd == price)
  {
    var ts, mk := QuietTable(s), QuietMarket(s);
    var order := AscendingOrderExists(ts);
    QuietTableHasDebt(s);
    EveryPriceIsReachable(ts, mk, price, 0.5, order);
    var market := DrawsAt(ts, mk, price, 0.5, order);
    QuietRow(s, market);
    d := QuietDraws(s, market);
    hide DrawsAt, Fee, Cap, Demand, OnCurve, LiquidityAt, Redeem, CeilingTrove, RowOf, Cleared, PhasesOf;
    OneBranch(ts, mk, market, 1);
  }

  lemma QuietTableHasDebt(s: State)
    requires Inv(s) && s.running
    ensures AllSound(QuietTable(s)) && TotalSupply(QuietTable(s)) > 0.0
  {
    QuietPhases(s, MarketDraws(0.0, 1.0, 1.0, 1.0, 0.5, []));
  }

  // From every running state, any positive price below the floor can be recorded, by a capped
  // redemption.
  lemma CappedStepIsPossible(s: State, price: real) returns (d: Draws)
    requires Inv(s) && s.running && 0.0 < price < FloorPrice(QuietMarket(s))
    ensures Admits(s, d) && Step(s, d).running && Cleared(s, d).liquidity >= 0.0
    ensures var r := RowOf(s, d); r.redemptionPool > 0.0 && r.priceYusd == price < 1.0 - r.baseRate
  {
    var ts, mk := QuietTable(s), QuietMarket(s);
    var order := AscendingOrderExists(ts);
    QuietTableHasDebt(s);
    hide Stabilize, QuietTable, DrawsFit;
    var market := CappedPrice(ts, mk, price, order, 1);
    QuietRow(s, market);
    d := QuietDraws(s, market);
  }

  // ... and the floor itself, by a redemption that the cap does not bind.
  lemma UncappedStepIsPossible(s: State, q: real) returns (d: Draws)
    requires Inv(s) && s.running && FloorPrice(QuietMarket(s)) > 0.0 && 0.0 < q < 1.0
    ensures Admits(s, d) && Step(s, d).running && Cleared(s, d).liquidity >= 0.0
    ensures var r := RowOf(s, d); r.redemptionPool > 0.0 && r.priceYusd == 1.0 - r.baseRate
  {
    var ts, mk := QuietTable(s), QuietMarket(s);
    var order := AscendingOrderExists(ts);
    QuietTableHasDebt(s);
    UncappedIsReachable(ts, mk, q, order);
    var market := DrawsAt(ts, mk, FloorPrice(mk) * q, 1.0 - 0.5 * Pow(q, ELASTICITY), order);
    QuietRow(s, market);
    d := QuietDraws(s, market);
    OneBranch(ts, mk, market, 1);
  }

  // ----- Runs -----

  ghost predicate AdmitsRun(s: State, ds: seq<Draws>)
    requires Inv(s)
    decreases |ds|
  {
    ds == [] || !s.running ||
    (Admits(s, ds[0]) &&
     (StepKeepsInv(s, ds[0]);
      AdmitsRun(Step(s, ds[0]), ds[1..])))
  }

  // The loop over the draws, broken off when the step says so.
  function Run(s: State, ds: seq<Draws>): State
    requires Inv(s) && AdmitsRun(s, ds)
    decreases |ds|
  {
    if ds == [] || !s.running then s
    else
      StepKeepsInv(s, ds[0]);
      Run(Step(s, ds[0]), ds[1..])
  }

  // Every run keeps the invariant: solvency of the table, and of the whole record the pool
  // identity, the price corridor, the rate rule and the count columns. It only appends rows.
  lemma {:induction false} RunKeepsInv(s: State, ds: seq<Draws>)
    requires Inv(s) && AdmitsRun(s, ds)
    ensures Inv(Run(s, ds)) && s.data <= Run(s, ds).data
    ensures Run(s, ds).running ==> s.running && |Run(s, ds).data| == |s.data| + |ds|
    decreases |ds|
  {
    hide Inv, Admits, Step;
    if ds == [] || !s.running {
    } else {
      StepKeepsInv(s, ds[0]);
      StepStops(s, ds[0]);
      RunKeepsInv(Step(s, ds[0]), ds[1..]);
    }
  }

  lemma {:induction false} RunKeepsPolicy(s: State, ds: seq<Draws>)
    requires Inv(s) && AdmitsRun(s, ds)
    ensures Run(s, ds).policy == s.policy
    decreases |ds|
  {
    hide Inv, Admits;
    if ds == [] || !s.running {
    } else {
      StepKeepsInv(s, ds[0]);
      RunKeepsPolicy(Step(s, ds[0]), ds[1..]);
    }
  }

  // Every row a run adds is explained by the draws of its step.
  ghost predicate AllExplained(data: seq<Row>, from: nat, ds: seq<Draws>)
    requires 0 < from
  {
    |data| <= from + |ds| &&
    forall k :: from <= k < |data| ==> Explained(data[k - 1], data[k], ds[k - from])
  }

  lemma {:induction false} OneMoreExplained(data: seq<Row>, from: nat, ds: seq<Draws>)
    requires 0 < from < |data| && ds != []
    requires Explained(data[from - 1], data[from], ds[0]) && AllExplained(data, from + 1, ds[1..])
    ensures AllExplained(data, from, ds)
  {
    hide Explained;
    forall k | from <= k < |data|
      ensures Explained(data[k - 1], data[k], ds[k - from])
    {
      if k > from {
        assert ds[1..][k - (from + 1)] == ds[k - from];
      }
    }
  }

  lemma {:induction false} RunIsExplained(s: State, ds: seq<Draws>)
    requires Inv(s) && AdmitsRun(s, ds)
    ensures |s.data| > 0 && AllExplained(Run(s, ds).data, |s.data|, ds)
    decreases |ds|
  {
    LastRowSound(s);
    hide Explained, Admits, RowOf, Inv;
    if ds == [] || !s.running {
    } else {
      var next, data := Step(s, ds[0]), Run(s, ds).data;
      StepKeepsInv(s, ds[0]);
      StepStops(s, ds[0]);
      if next.running {
        RowIsExplained(s, ds[0]);
        RunKeepsInv(next, ds[1..]);
        RunIsExplained(next, ds[1..]);
        RowsStay(s.data, RowOf(s, ds[0]), data);
        OneMoreExplained(data, |s.data|, ds);
      } else {
        assert Run(next, ds[1..]) == next;
      }
    }
  }

  lemma RowsStay(data: seq<Row>, r: Row, longer: seq<Row>)
    requires data != [] && data + [r] <= longer
    ensures |data| < |longer| && longer[|data| - 1] == data[|data| - 1] && longer[|data|] == r
  {
    assert longer[|data| - 1] == (data + [r])[|data| - 1] && longer[|data|] == (data + [r])[|data|];
  }

  ghost function RunFlow(s: State, ds: seq<Draws>): real
    requires Inv(s) && AdmitsRun(s, ds)
    decreases |ds|
  {
    if ds == [] || !s.running then 0.0
    else
      StepKeepsInv(s, ds[0]);
      NetFlow(s, ds[0]) + RunFlow(Step(s, ds[0]), ds[1..])
  }

  // Conservation of the stablecoin over a whole run.
  lemma {:induction false} RunLedger(s: State, ds: seq<Draws>)
    requires Inv(s) && AdmitsRun(s, ds)
    ensures TotalSupply(Run(s, ds).troves) == TotalSupply(s.troves) + RunFlow(s, ds)
    decreases |ds|
  {
    hide Inv, Admits, Step, NetFlow;
    if ds == [] || !s.running {
    } else {
      StepKeepsInv(s, ds[0]);
      SupplyLedger(s, ds[0]);
      RunLedger(Step(s, ds[0]), ds[1..]);
    }
  }

  // ----- The feedback bound -----

  // The share of supply redeemed is at most rho / (1 - rho) when no draw exceeds rho.
  ghost function RateBound(rho: real): real
    requires rho < 1.0
  {
    0.98 + 0.5 * (rho / (1.0 - rho))
  }

  ghost predicate RateBounded(r: Row, rho: real)
    requires rho < 1.0
  {
    && 0.0 <= r.baseRate <= RateBound(rho)
    && ShareWithin(r.redemptionPool, r.supplyYusd, rho)
    && (r.baseRate >= 1.0 ==> r.redemptionPool == 0.0)
  }

  lemma ShareMonotone(pool: real, supply: real, ratio: real, rho: real)
    requires ShareWithin(pool, supply, ratio) && ratio <= rho && pool >= 0.0 && supply >= 0.0
    ensures ShareWithin(pool, supply, rho)
  {
    Dominates(1.0 - ratio, 1.0 - rho, pool);
    Dominates(rho, ratio, supply);
  }

  lemma ShareAsQuotient(pool: real, supply: real, rho: real)
    requires ShareWithin(pool, supply, rho) && rho < 1.0 && supply > 0.0
    ensures pool / supply <= rho / (1.0 - rho)
  {
    var share, bound := pool / supply, rho / (1.0 - rho);
    assert share * supply == pool;
    assert bound * (1.0 - rho) == rho;
    assert (share * supply) * (1.0 - rho) <= (bound * (1.0 - rho)) * supply;
    FactorOrder(supply * (1.0 - rho), bound, share);
  }

  // One application of the rule: a rate of 1 or more was not followed by a redemption, so it can
  // only decay; a rate below 1 leaves room for the largest share.
  lemma RuleStaysBounded(baseRate: real, pool: real, supply: real, rho: real)
    requires 0.0 <= rho < 1.0 && supply > 0.0 && pool >= 0.0
    requires 0.0 <= baseRate <= RateBound(rho) && ShareWithin(pool, supply, rho)
    requires baseRate >= 1.0 ==> pool == 0.0
    ensures 0.0 <= FeedbackBaseRate(baseRate, pool, supply) <= RateBound(rho)
  {
    ShareAsQuotient(pool, supply, rho);
    assert pool / supply >= 0.0;
    assert pool == 0.0 ==> pool / supply == 0.0;
  }

  lemma RowIsBounded(s: State, d: Draws, rho: real)
    requires Inv(s) && s.running && Admits(s, d) && Cleared(s, d).liquidity >= 0.0
    requires s.policy.FeedbackRate? && d.market.redemptionRatio <= rho < 1.0
    requires RateBounded(Last(s), rho)
    ensures RateBounded(RowOf(s, d), rho)
  {
    hide Stabilize, PhasesOf, LiquidationGain, IssuanceFees, ShareWithin, RateBound;
    MarketIsReady(s, d);
    LastRowSound(s);
    RuleStaysBounded(Last(s).baseRate, Last(s).redemptionPool, Last(s).supplyYusd, rho);
    var offered, mk, nOpen := PhasesOf(s.troves, d).Offered(), MarketOf(s, d), |d.openings|;
    PoolsStayPositive(offered, mk, d.market, nOpen);
    OneBranch(offered, mk, d.market, nOpen);
    RedeemedShare(offered, mk, d.market, nOpen);
    var r := RowOf(s, d);
    RowIsSound(s, d);
    ShareMonotone(r.redemptionPool, r.supplyYusd, d.market.redemptionRatio, rho);
    if r.baseRate >= 1.0 {
      NoRedemptionAtFullRate(offered, mk, d.market, nOpen);
    }
  }

  // Over any run of the feedback policy whose redemption ratios stay within rho, every recorded
  // base rate stays in [0, 0.98 + 0.5 * rho / (1 - rho)].
  lemma {:induction false} FeedbackBound(s: State, ds: seq<Draws>, rho: real)
    requires Inv(s) && AdmitsRun(s, ds) && s.policy.FeedbackRate? && 0.0 <= rho < 1.0
    requires forall i :: 0 <= i < |ds| ==> ds[i].market.redemptionRatio <= rho
    requires forall k :: 0 <= k < |s.data| ==> RateBounded(s.data[k], rho)
    ensures forall k :: 0 <= k < |Run(s, ds).data| ==> RateBounded(Run(s, ds).data[k], rho)
    decreases |ds|
  {
    hide RateBounded, Admits;
    if ds == [] || !s.running {
    } else {
      StepKeepsInv(s, ds[0]);
      StepStops(s, ds[0]);
      if Step(s, ds[0]).running {
        RowIsBounded(s, ds[0], rho);
      }
      FeedbackBound(Step(s, ds[0]), ds[1..], rho);
    }
  }

  // ----- Runs from the initial state -----

  // The record starts with ten troves at an ether price of 1000, half of the supply in each pool,
  // and a fee charged at the fixed rate under either policy.
  function Start(policy: Policy, openings: seq<Opening>): (s: State)
    requires AllPlausible(openings) && |openings| == INITIAL_OPEN
    ensures Inv(s)
  {
    OpenedKeep(openings, INITIAL_ETHER_PRICE);
    TotalSupplyPositive(Opened(openings, INITIAL_ETHER_PRICE));
    var troves := Opened(openings, INITIAL_ETHER_PRICE);
    var supply := TotalSupply(troves);
    var row := Row(INITIAL_PRICE, INITIAL_ETHER_PRICE, INITIAL_OPEN, 0, 0, 0, INITIAL_OPEN,
                   0.5 * supply, 0.5 * supply, 0.0, supply, Fee(INITIAL_RATE, supply) * INITIAL_PRICE, 0.0, 0.0,
                   if policy.FixedRate? then INITIAL_RATE else INITIAL_BASE_RATE);
    State(policy, troves, [row], INITIAL_RATE, INITIAL_RATE, INITIAL_ETHER_PRICE, true)
  }

  // The start: ten troves as drawn at an ether price of 1000, a stablecoin price of 1, the supply split
  // evenly between the two pools, 1% of it charged for issuance, and nothing else recorded. Both fee
  // rates are 1%; the base rate of the feedback run is 0.
  ghost predicate StartsFrom(s: State, openings: seq<Opening>)
  {
    && AllAsDrawn(s.troves, openings, 1000.0) && |openings| == 10
    && s.etherPrice == 1000.0 && s.rateIssuance == s.rateRedemption == 0.01 && s.running
    && |s.data| == 1 && var r := s.data[0];
    && r.priceYusd == 1.0 && r.priceEther == 1000.0 && r.nOpen == r.nTroves == 10
    && r.nClose == r.nLiquidate == r.nRedempt == 0
    && r.liquidity == r.stability && r.liquidity + r.stability == r.supplyYusd == TotalSupply(s.troves)
    && 100.0 * r.issuanceFee == r.supplyYusd
    && r.redemptionPool == r.redemptionFee == r.liquidationGain == 0.0
    && r.baseRate == match s.policy { case FixedRate => 0.01 case FeedbackRate => 0.0 }
  }

  lemma StartsAsDrawn(policy: Policy, openings: seq<Opening>)
    requires AllPlausible(openings) && |openings| == INITIAL_OPEN
    ensures StartsFrom(Start(policy, openings), openings)
  {
    hide Inv, AllAsDrawn;
    OpenedAsDrawn(openings, INITIAL_ETHER_PRICE);
  }

  // Under the fixed policy the recorded rate is 1% throughout; under the feedback policy it obeys the
  // rule from row to row.
  ghost predicate RateRuled(policy: Policy, prev: Row, r: Row)
  {
    match policy
    case FixedRate => r.baseRate == 0.01
    case FeedbackRate => RateRule(prev.baseRate, prev.redemptionPool, prev.supplyYusd, r.baseRate)
  }

  lemma RecordIsRuled(s: State)
    requires Inv(s)
    ensures forall k :: 1 <= k < |s.data| ==> RateRuled(s.policy, s.data[k - 1], s.data[k])
  {
    hide AllSound, AllBacked, RateRule, FeedbackBaseRate, InCorridor, CountsBalance;
    forall k | 1 <= k < |s.data|
      ensures RateRuled(s.policy, s.data[k - 1], s.data[k])
    {
      assert Follows(s.policy, s.data[k - 1], s.data[k]);
      if k > 1 {
        assert Follows(s.policy, s.data[k - 2], s.data[k - 1]);
      }
      assert RowSound(s.data[k - 1]);
      FeedbackFollowsRule(s.data[k - 1].baseRate, s.data[k - 1].redemptionPool, s.data[k - 1].supplyYusd);
    }
  }

  ghost predicate PoolsAndPriceHold(r: Row)
  {
    && r.supplyYusd == r.liquidity + r.stability - r.redemptionPool
    && 0.0 < r.priceYusd && (r.priceYusd <= 1.1 + r.baseRate || r.priceYusd == INITIAL_PRICE)
  }

  lemma RecordHolds(s: State)
    requires Inv(s)
    ensures forall r :: r in s.data ==> PoolsAndPriceHold(r)
  {
    hide AllSound, AllBacked;
    forall r | r in s.data
      ensures PoolsAndPriceHold(r)
    {
      var k :| 0 <= k < |s.data| && s.data[k] == r;
      if k > 0 {
        assert Follows(s.policy, s.data[k - 1], s.data[k]);
      }
    }
  }

  // Every run under either policy: the table it leaves is sound and backed at the current ether
  // price; each row it records satisfies the pool identity and the upper bound on the price; and
  // each row after row 0 is explained by the draws of its step, which gives the lower bound, and
  // obeys the rate rule.
  lemma {:induction false} EveryRun(policy: Policy, openings: seq<Opening>, ds: seq<Draws>)
    requires AllPlausible(openings) && |openings| == INITIAL_OPEN
    requires AdmitsRun(Start(policy, openings), ds)
    ensures var s := Run(Start(policy, openings), ds);
      && AllSound(s.troves) && AllBacked(s.troves, s.etherPrice)
      && (forall r :: r in s.data ==> PoolsAndPriceHold(r))
      && |s.data| <= 1 + |ds|
      && (forall k :: 1 <= k < |s.data| ==> Explained(s.data[k - 1], s.data[k], ds[k - 1]))
      && (forall k :: 1 <= k < |s.data| ==> RateRuled(policy, s.data[k - 1], s.data[k]))
  {
    var start := Start(policy, openings);
    assert |start.data| == 1 && start.policy == policy;
    hide PoolsAndPriceHold, Explained, RateRuled, Start, RecordSound, Run, AdmitsRun;
    RunKeepsInv(start, ds);
    RunKeepsPolicy(start, ds);
    RecordHolds(Run(start, ds));
    RecordIsRuled(Run(start, ds));
    RunIsExplained(start, ds);
  }

  lemma StartIsBounded(openings: seq<Opening>, rho: real)
    requires AllPlausible(openings) && |openings| == INITIAL_OPEN && 0.0 <= rho < 1.0
    ensures RateBounded(Start(FeedbackRate, openings).data[0], rho)
  {
    hide Inv;
    OpenedKeep(openings, INITIAL_ETHER_PRICE);
    TotalSupplyPositive(Opened(openings, INITIAL_ETHER_PRICE));
    assert rho * TotalSupply(Opened(openings, INITIAL_ETHER_PRICE)) >= 0.0;
    ShareAsQuotient(0.0, 1.0, rho);
  }

  // The feedback bound from the start, where the base rate is zero and nothing has been redeemed.
  lemma {:induction false} FeedbackBoundFromStart(openings: seq<Opening>, ds: seq<Draws>, rho: real)
    requires AllPlausible(openings) && |openings| == INITIAL_OPEN && 0.0 <= rho < 1.0
    requires AdmitsRun(Start(FeedbackRate, openings), ds)
    requires forall i :: 0 <= i < |ds| ==> ds[i].market.redemptionRatio <= rho
    ensures forall r :: r in Run(Start(FeedbackRate, openings), ds).data ==>
      0.0 <= r.baseRate <= 0.98 + 0.5 * (rho / (1.0 - rho))
  {
    hide ShareWithin, Inv;
    StartIsBounded(openings, rho);
    FeedbackBound(Start(FeedbackRate, openings), ds, rho);
  }
}
