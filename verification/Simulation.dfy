// The simulation as the source runs it: a table, a record and the rates, changed in place phase by
// phase. Each method is proved against the value-level step of `Machine`.

module Simulation {
  import opened Arithmetic
  import opened Troves
  import opened Liquidation
  import opened Closing
  import opened Adjusting
  import opened Opening
  import opened Redemption
  import opened PriceCurve
  import opened Stabilizer
  import opened Machine
  import opened Runs

  class Simulation {
    const policy: Policy
    var troves: seq<Trove>
    var data: seq<Row>
    var rateIssuance: real
    var rateRedemption: real
    var priceEther: real
    var running: bool

    ghost function Value(): State
      reads this
    {
      State(policy, troves, data, rateIssuance, rateRedemption, priceEther, running)
    }

    constructor (policy: Policy, openings: seq<Opening>)
      requires AllPlausible(openings) && |openings| == INITIAL_OPEN
      ensures StartsFrom(Value(), openings)
      ensures Value() == Start(policy, openings)
    {
      StartsAsDrawn(policy, openings);
      this.policy := policy;
      rateIssuance, rateRedemption := INITIAL_RATE, INITIAL_RATE;
      priceEther := INITIAL_ETHER_PRICE;
      troves, data := [], [];
      running := true;
      new;
      var nOpen, issuance := OpenTroves(openings);
      assert troves == Opened(openings, INITIAL_ETHER_PRICE);
      var supply := TotalSupply(troves);
      data := [Row(INITIAL_PRICE, INITIAL_ETHER_PRICE, INITIAL_OPEN, 0, 0, 0, INITIAL_OPEN,
                   0.5 * supply, 0.5 * supply, 0.0, supply, issuance * INITIAL_PRICE, 0.0, 0.0,
                   if policy.FixedRate? then INITIAL_RATE else INITIAL_BASE_RATE)];
    }

    method SetEtherPrice(price: real)
      modifies this`priceEther, this`troves
      ensures priceEther == price && troves == MarkPrice(old(troves), price)
    {
      priceEther := price;
      troves := MarkPrice(troves, price);
    }

    // Survivors are sound, backed at the current ether price and recorded at their true ratios; every
    // backed trove survives; debt, collateral and rows split between survivors and liquidated; and the
    // gain, the liquidated collateral's value less the debt's, is below 1.1 less the stablecoin price
    // per unit of liquidated debt.
    method LiquidateTroves() returns (debt: real, ether: real, gain: real, nLiquidate: nat)
      requires data != [] && AllSound(troves)
      requires priceEther > 0.0 && forall i :: 0 <= i < |troves| ==> troves[i].etherPrice == priceEther
      modifies this`troves
      ensures Liquidates(old(troves), troves, priceEther, debt, ether, nLiquidate)
      ensures GainIs(gain, ether, priceEther, debt, data[|data| - 1].priceYusd)
      ensures GainWithin(gain, debt, data[|data| - 1].priceYusd)
      ensures var failing := Failing(Recompute(old(troves)));
        && troves == Performing(Recompute(old(troves))) && nLiquidate == |failing|
        && debt == TotalSupply(failing) && ether == TotalEther(failing)
        && gain == LiquidationGain(failing, priceEther, data[|data| - 1].priceYusd)
    {
      hide Liquidates, GainWithin, TrueRatio;
      assert MarkPrice(troves, priceEther) == troves;
      LiquidationLiquidates(troves, priceEther);
      LiquidationGainIsBounded(troves, priceEther, data[|data| - 1].priceYusd);
      troves := Recompute(troves);
      var liquidated := Failing(troves);
      troves := Performing(troves);
      debt, ether := TotalSupply(liquidated), TotalEther(liquidated);
      nLiquidate := |liquidated|;
      gain := ether * priceEther - debt * data[|data| - 1].priceYusd;
      assert gain == LiquidationGain(liquidated, priceEther, data[|data| - 1].priceYusd);
    }

    // As many rows go as were sampled, and exactly the rows not sampled stay. The count reported is
    // -999 when more than half of the rows were sampled.
    method CloseTroves(drops: seq<nat>) returns (nClose: int)
      requires IsSample(drops, |troves|)
      modifies this`troves
      ensures |troves| == |old(troves)| - |drops|
      ensures forall t :: t in troves <==> exists i: nat :: i < |old(troves)| && i !in drops && old(troves)[i] == t
      ensures TotalSupply(old(troves)) == TotalSupply(troves) + TotalSupply(Closed(old(troves), drops))
      ensures nClose == if 2 * |drops| > |old(troves)| then -999 else |drops|
      ensures troves == Close(old(troves), drops)
    {
      CloseDropsTheSample(troves, drops);
      nClose := |drops|;
      troves := Close(troves, drops);
      if |troves| < nClose {
        nClose := -999;
      }
    }

    // The body of the adjusting loop: the branches on the draw and on the drift of one row.
    method AdjustWorkingTrove(t: Trove, p: real, ratio: real) returns (working: Trove, fee: real)
      requires Adjustable(t)
      ensures working == AdjustRow(t, p, ratio) && fee == AdjustFee(t, p, ratio, rateIssuance)
    {
      working, fee := t, 0.0;
      var check := Check(working);
      if p >= ratio {
        if check < -1.0 {
          working := working.(supply := working.etherPrice * working.etherQuantity / working.crInitial);
        }
        if check > 2.0 {
          var supply := working.etherPrice * working.etherQuantity / working.crInitial;
          fee := rateIssuance * (supply - working.supply);
          working := working.(supply := supply);
        }
      }
      if p < ratio && (check < -1.0 || check > 2.0) {
        working := working.(etherQuantity := working.crInitial * working.supply / working.etherPrice);
      }
    }

    // Each sound row is adjusted by its own draw; for a sound table with true ratios the fee is the
    // rate times the sum of the rises in debt.
    method AdjustTroves(uniforms: nat -> real, ratio: real) returns (issuance: real)
      requires forall i :: 0 <= i < |troves| ==> Adjustable(troves[i])
      modifies this`troves
      ensures AdjustsEach(old(troves), troves, uniforms, ratio)
      ensures AllSound(old(troves)) && AllFresh(old(troves)) ==>
        issuance == Fee(rateIssuance, GrossIncrease(old(troves), troves))
      ensures troves == Adjust(old(troves), uniforms, ratio)
      ensures issuance == AdjustFees(old(troves), uniforms, ratio, rateIssuance)
    {
      hide AdjustRow, AdjustFee, AdjustsEach, GrossIncrease;
      issuance := 0.0;
      ghost var table := troves;
      var i := 0;
      while i < |troves|
        invariant 0 <= i <= |troves| == |table|
        invariant forall k :: 0 <= k < i ==> troves[k] == AdjustRow(table[k], uniforms(k), ratio)
        invariant forall k :: i <= k < |table| ==> troves[k] == table[k]
        invariant issuance == AdjustFees(table[..i], uniforms, ratio, rateIssuance)
      {
        var working, fee := AdjustWorkingTrove(troves[i], uniforms(i), ratio);
        FeesStep(table, i, uniforms, ratio, rateIssuance);
        issuance := issuance + fee;
        troves := troves[i := working];
        i := i + 1;
      }
      assert table[..i] == table;
      assert troves == Adjust(table, uniforms, ratio);
      AdjustIsEach(table, uniforms, ratio);
      if AllSound(table) && AllFresh(table) {
        AdjustFeesAreMint(table, uniforms, ratio, rateIssuance);
      }
    }

    // The table grows by the drawn troves, one for one and in order, and by the drawn collateral; the
    // fee is the rate times the debt that came in.
    method OpenTroves(openings: seq<Opening>) returns (nOpen: nat, issuance: real)
      requires AllPlausible(openings)
      modifies this`troves
      ensures old(troves) <= troves && AllAsDrawn(troves[|old(troves)|..], openings, priceEther)
      ensures TotalEther(troves) == TotalEther(old(troves)) + Sum(Quantities(openings))
      ensures issuance == Fee(rateIssuance, TotalSupply(troves) - TotalSupply(old(troves)))
      ensures troves == old(troves) + Opened(openings, priceEther)
      ensures nOpen == |openings|
      ensures issuance == Fee(rateIssuance, TotalSupply(Opened(openings, priceEther)))
    {
      hide Fee, AllAsDrawn, Opened;
      OpenedNone(priceEther, rateIssuance);
      issuance := 0.0;
      ghost var table := troves;
      for i := 0 to |openings|
        invariant troves == table + Opened(openings[..i], priceEther)
        invariant issuance == Fee(rateIssuance, TotalSupply(Opened(openings[..i], priceEther)))
      {
        var o := openings[i];
        var supply := priceEther * o.etherQuantity / o.crRatio;
        var row := Trove(priceEther, o.etherQuantity, o.crRatio, supply, o.inattention, o.crRatio);
        assert row == OpenTrove(o, priceEther);
        OpenedStep(openings, i, priceEther, rateIssuance);
        issuance := issuance + rateIssuance * supply;
        troves := troves + [row];
      }
      assert openings[..|openings|] == openings;
      nOpen := |openings|;
      OpenedAsDrawn(openings, priceEther);
      TotalSupplyConcat(table, Opened(openings, priceEther));
      assert troves[|table|..] == Opened(openings, priceEther);
    }

    method PriceStabilizer(d: MarketDraws, opened0: nat) returns (o: Outcome)
      requires data != []
      requires Admissible(troves, CurrentMarket(), d)
      modifies this`troves
      ensures o == old(Stabilize(troves, CurrentMarket(), d, opened0)) && troves == o.troves
    {
      hide OnCurve, LiquidityAt, Demand, Cap;
      ghost var mk := CurrentMarket();
      ghost var table := troves;
      var issuance, redemptionFee, nRedempt, redemptionPool, nOpen := 0.0, 0.0, 0, 0.0, opened0;
      var previous := data[|data| - 1];
      var supply := TotalSupply(troves);
      var demand := Demand(previous.liquidity, d.growth);
      var price := Evaluate(supply - d.stability, d.root);
      var liquidity := supply - d.stability;

      if price.Above(1.1 + rateIssuance) {
        var wanted := d.stability + LiquidityAt(1.1 + rateIssuance, previous.priceYusd, demand);
        var minted := wanted - supply;
        issuance := Fee(rateIssuance, minted);
        troves := troves + [Trove(priceEther, minted * CR_MINIMUM / priceEther, CR_MINIMUM, minted, 0.1, CR_MINIMUM)];
        price := Finite(1.1 + rateIssuance);
        liquidity := wanted - d.stability;
        nOpen := nOpen + 1;
      }

      if price.Under(1.0 - rateRedemption) {
        FloorPoolFits(table, mk, d);
        var target := d.stability + LiquidityAt(1.0 - rateRedemption, previous.priceYusd, demand);
        var gap := supply - target;
        if gap < Cap(d.redemptionRatio, liquidity) {
          redemptionPool := gap;
          price := Finite(1.0 - rateRedemption);
        } else {
          redemptionPool := Cap(d.redemptionRatio, liquidity);
          price := Evaluate(liquidity, d.floorRoot);
        }
        troves, nRedempt := RedeemRiskiest(d.order, redemptionPool, priceEther);
        redemptionFee := Fee(rateRedemption, redemptionPool);
      }
      FeeOfNothing(rateIssuance);
      FeeOfNothing(rateRedemption);
      o := Outcome(price, liquidity, troves, issuance, redemptionFee, nRedempt, redemptionPool, nOpen);
    }

    // The policy function of the feedback run; the fixed-rate run has none. Both rates become one
    // non-negative base rate. It decays by 2% exactly when nothing was redeemed; otherwise it rises over
    // that by half the share redeemed, which is at most half of rho / (1 - rho) when the share allows.
    method SetRates()
      requires data != [] && RowSound(data[|data| - 1]) && TotalSupply(troves) > 0.0
      modifies this`rateIssuance, this`rateRedemption
      ensures policy.FixedRate? ==> rateIssuance == old(rateIssuance) && rateRedemption == old(rateRedemption)
      ensures policy.FeedbackRate? ==> rateIssuance == rateRedemption >= 0.0
      ensures policy.FeedbackRate? ==> var last := data[|data| - 1];
        && RateRule(last.baseRate, last.redemptionPool, TotalSupply(troves), rateIssuance)
        && rateIssuance >= 0.98 * last.baseRate
        && (rateIssuance == 0.98 * last.baseRate <==> last.redemptionPool == 0.0)
        && (forall rho :: 0.0 <= rho < 1.0 && ShareWithin(last.redemptionPool, TotalSupply(troves), rho) ==>
              rateIssuance <= 0.98 * last.baseRate + 0.5 * (rho / (1.0 - rho)))
      ensures policy.FeedbackRate? ==> rateIssuance == NextBaseRate(Value())
    {
      if policy.FeedbackRate? {
        var previous := data[|data| - 1];
        var share := previous.redemptionPool / TotalSupply(troves);
        FeedbackFollowsRule(previous.baseRate, previous.redemptionPool, TotalSupply(troves));
        Quotient(previous.redemptionPool, TotalSupply(troves));
        SignOfProduct(share, TotalSupply(troves));
        forall rho | 0.0 <= rho < 1.0 && ShareWithin(previous.redemptionPool, TotalSupply(troves), rho)
          ensures share <= rho / (1.0 - rho)
        {
          ShareAsQuotient(previous.redemptionPool, TotalSupply(troves), rho);
        }
        var baseRate := 0.98 * previous.baseRate + 0.5 * share;
        rateIssuance := baseRate;
        rateRedemption := baseRate;
      }
    }

    // Liquidate, close, adjust and open, on a table that already carries the new ether price.
    method MoveTroves(ghost before: seq<Trove>, d: Draws)
      returns (gain: real, nLiquidate: nat, nClose: int, nOpen: nat, adjustIssuance: real, openIssuance: real)
      requires data != [] && Plays(before, d)
      requires troves == MarkPrice(before, d.etherPrice) && priceEther == d.etherPrice
      modifies this`troves
      ensures var ph := PhasesOf(before, d);
        && troves == ph.Offered()
        && gain == LiquidationGain(Failing(ph.marked), d.etherPrice, data[|data| - 1].priceYusd)
        && nLiquidate == |Failing(ph.marked)|
        && nClose == ReportedCloses(|ph.remaining|, |d.drops|)
        && nOpen == |d.openings|
        && adjustIssuance == AdjustFees(ph.remaining, d.uniforms, d.ratio, rateIssuance)
        && openIssuance == Fee(rateIssuance, TotalSupply(ph.entering))
    {
      hide Liquidates, GainWithin, LiquidationGain, TrueRatio, Backed, Fee, Performing, Failing, AdjustFees;
      hide GainIs, AdjustsEach, AllAsDrawn, GrossIncrease, Quantities, Sum, TotalSupply, TotalEther, Close, Closed;
      ghost var ph := PhasesOf(before, d);
      assert Recompute(troves) == ph.marked;
      var debt, ether;
      debt, ether, gain, nLiquidate := LiquidateTroves();
      nClose := CloseTroves(d.drops);
      assert troves == ph.remaining;
      adjustIssuance := AdjustTroves(d.uniforms, d.ratio);
      nOpen, openIssuance := OpenTroves(d.openings);
    }

    // The new ether price and, under the feedback policy, the new base rate.
    method SetPricesAndRates(d: Draws)
      requires Inv(Value()) && running
      modifies this
      ensures TotalSupply(old(troves)) > 0.0
      ensures troves == MarkPrice(old(troves), d.etherPrice) && data == old(data) && running
      ensures CurrentMarket() == MarketOf(old(Value()), d)
    {
      LastRowSound(Value());
      RateNonNegative(Value());
      TotalSupplyByColumn(MarkPrice(troves, d.etherPrice), troves);
      SetEtherPrice(d.etherPrice);
      SetRates();
    }

    // The summary at the end of a pass: one more row, and a stop if the price went negative.
    method Record(ghost before: State, d: Draws, price: real, o: Outcome, nClose: int, nLiquidate: nat,
                  gain: real, fees: real)
      requires Inv(before) && before.running && Admits(before, d)
      requires o == Cleared(before, d) && o.liquidity >= 0.0 && o.price == Finite(price)
      requires policy == before.policy && troves == o.troves && priceEther == d.etherPrice && running
      requires TotalSupply(before.troves) != 0.0 && rateIssuance == MarketOf(before, d).rateIssuance
      requires var ph := PhasesOf(before.troves, d);
        && nClose == ReportedCloses(|ph.remaining|, |d.drops|) && nLiquidate == |Failing(ph.marked)|
        && gain == LiquidationGain(Failing(ph.marked), d.etherPrice, Last(before).priceYusd)
        && fees == IssuanceFees(ph, d, rateIssuance, o.issuance)
      modifies this`data, this`running
      ensures data == old(data) + [RowOf(before, d)] && running == (price >= 0.0)
    {
      hide Stabilize, PhasesOf, IssuanceFees, LiquidationGain, FeedbackBaseRate, RecordSound;
      var row := Row(price, priceEther, o.nOpen, nClose, nLiquidate, o.nRedempt, |troves|,
                     d.market.stability, o.liquidity, o.redemptionPool, TotalSupply(troves),
                     price * fees, o.redemptionFee, gain,
                     if policy.FixedRate? then INITIAL_RATE else rateIssuance);
      assert row.(issuanceFee := 0.0) == RowOf(before, d).(issuanceFee := 0.0);
      assert row.issuanceFee == RowOf(before, d).issuanceFee;
      data := data + [row];
      if price < 0.0 {
        running := false;
      }
    }

    // One pass of the loop.
    method Advance(d: Draws)
      requires Inv(Value()) && running && Admits(Value(), d)
      modifies this
      ensures Value() == Step(old(Value()), d)
      ensures Inv(Value())
    {
      ghost var before := Value();
      assert data != [];
      hide Stabilize, PhasesOf, AdjustFees, LiquidationGain, Fee, FeedbackBaseRate, RecordSound, RowOf, DrawsFit;
      MarketIsReady(before, d);
      SetPricesAndRates(d);
      var gain, nLiquidate, nClose, nOpen, adjustIssuance, openIssuance := MoveTroves(before.troves, d);
      var o := PriceStabilizer(d.market, nOpen);
      if o.liquidity < 0.0 {
        running := false;
      } else {
        var fees := adjustIssuance + openIssuance + o.issuance;
        Record(before, d, o.price.value, o, nClose, nLiquidate, gain, fees);
      }
      StepKeepsInv(before, d);
    }

    // The whole simulation.
    method Simulate(ds: seq<Draws>)
      requires Inv(Value()) && AdmitsRun(Value(), ds)
      modifies this
      ensures Value() == Run(old(Value()), ds)
      ensures Inv(Value()) && old(data) <= data
    {
      hide Inv, Admits, Step;
      ghost var start := Value();
      RunKeepsInv(start, ds);
      var index := 0;
      while index < |ds| && running
        invariant 0 <= index <= |ds|
        invariant Inv(Value()) && AdmitsRun(Value(), ds[index..])
        invariant Run(Value(), ds[index..]) == Run(start, ds)
      {
        assert ds[index..][1..] == ds[index + 1..];
        Advance(ds[index]);
        index := index + 1;
      }
    }

    ghost function CurrentMarket(): Market
      requires data != []
      reads this
    {
      Market(data[|data| - 1].priceYusd, data[|data| - 1].liquidity, rateIssuance, rateRedemption, priceEther)
    }
  }

  lemma FeeOfNothing(rate: real)
    ensures Fee(rate, 0.0) == 0.0
  {
  }

  lemma OpenedNone(price: real, rate: real)
    ensures Opened([], price) == [] && Fee(rate, TotalSupply(Opened([], price))) == 0.0
  {
  }

  lemma FeesStep(ts: seq<Trove>, i: nat, uniforms: nat -> real, ratio: real, rate: real)
    requires i < |ts| && forall k :: 0 <= k < |ts| ==> Adjustable(ts[k])
    ensures AdjustFees(ts[..i + 1], uniforms, ratio, rate)
      == AdjustFees(ts[..i], uniforms, ratio, rate) + AdjustFee(ts[i], uniforms(i), ratio, rate)
  {
    hide AdjustFee;
    assert Fees(ts[..i + 1], uniforms, ratio, rate)
        == Fees(ts[..i], uniforms, ratio, rate) + [AdjustFee(ts[i], uniforms(i), ratio, rate)];
    SumAppend(Fees(ts[..i], uniforms, ratio, rate), AdjustFee(ts[i], uniforms(i), ratio, rate));
  }

  lemma OpenedStep(os: seq<Opening>, i: nat, price: real, rate: real)
    requires AllPlausible(os) && i < |os|
    ensures Opened(os[..i + 1], price) == Opened(os[..i], price) + [OpenTrove(os[i], price)]
    ensures Fee(rate, TotalSupply(Opened(os[..i + 1], price)))
      == Fee(rate, TotalSupply(Opened(os[..i], price))) + rate * OpenTrove(os[i], price).supply
  {
    hide OpenTrove;
    assert Opened(os[..i + 1], price) == Opened(os[..i], price) + [OpenTrove(os[i], price)];
    TotalSupplyAppend(Opened(os[..i], price), OpenTrove(os[i], price));
    Distribute(rate, TotalSupply(Opened(os[..i], price)), OpenTrove(os[i], price).supply);
  }
}
