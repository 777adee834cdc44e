// The new ether price, the recomputed ratios, and the liquidation of the troves below 1.1.

module Liquidation {
  import opened Arithmetic
  import opened Troves

  function MarkPrice(ts: seq<Trove>, price: real): seq<Trove>
  {
    seq(|ts|, i requires 0 <= i < |ts| => ts[i].(etherPrice := price))
  }

  // The trove with its true ratio recorded.
  function Renewed(t: Trove): Trove
    requires t.supply != 0.0
  {
    t.(crCurrent := TrueRatio(t))
  }

  function Recompute(ts: seq<Trove>): seq<Trove>
    requires forall i :: 0 <= i < |ts| ==> ts[i].supply != 0.0
  {
    seq(|ts|, i requires 0 <= i < |ts| && ts[i].supply != 0.0 => Renewed(ts[i]))
  }

  function PerformingIndices(ts: seq<Trove>): set<nat>
  {
    set i: nat | i < |ts| && ts[i].crCurrent >= CR_MINIMUM
  }

  function FailingIndices(ts: seq<Trove>): set<nat>
  {
    set i: nat | i < |ts| && ts[i].crCurrent < CR_MINIMUM
  }

  function Performing(ts: seq<Trove>): seq<Trove>
  {
    Rows(ts, PerformingIndices(ts))
  }

  function Failing(ts: seq<Trove>): seq<Trove>
  {
    Rows(ts, FailingIndices(ts))
  }

  // Performing and failing rows split the table at 1.1: no row, debt or collateral is lost, duplicated
  // or misfiled.
  lemma LiquidationSplits(ts: seq<Trove>)
    ensures TotalSupply(Performing(ts)) + TotalSupply(Failing(ts)) == TotalSupply(ts)
    ensures TotalEther(Performing(ts)) + TotalEther(Failing(ts)) == TotalEther(ts)
    ensures |Performing(ts)| + |Failing(ts)| == |ts|
    ensures forall t :: t in Performing(ts) <==> t in ts && t.crCurrent >= 1.1
    ensures forall t :: t in Failing(ts) <==> t in ts && t.crCurrent < 1.1
  {
    RowsSplit(ts, PerformingIndices(ts), FailingIndices(ts));
    RowsHold(ts, PerformingIndices(ts));
    RowsHold(ts, FailingIndices(ts));
  }

  // Marking the price and recomputing the ratios leaves debt and collateral alone and records true
  // ratios.
  lemma MarkedTable(ts: seq<Trove>, price: real)
    requires AllSound(ts) && price > 0.0
    ensures var marked := Recompute(MarkPrice(ts, price));
      && |marked| == |ts| && TotalSupply(marked) == TotalSupply(ts) && TotalEther(marked) == TotalEther(ts)
      && AllSound(marked) && AllFresh(marked)
      && (forall i :: 0 <= i < |ts| ==>
            marked[i] == ts[i].(etherPrice := marked[i].etherPrice, crCurrent := marked[i].crCurrent)
            && marked[i].etherPrice == price)
  {
    hide TotalSupply, TotalEther;
    TotalSupplyByColumn(Recompute(MarkPrice(ts, price)), ts);
    TotalEtherByColumn(Recompute(MarkPrice(ts, price)), ts);
  }

  // A surviving trove is backed at the new price; a liquidated one is not.
  lemma LiquidationKeepsBacked(ts: seq<Trove>, price: real)
    requires AllSound(ts) && price > 0.0
    ensures var marked := Recompute(MarkPrice(ts, price));
      && AllSound(Performing(marked)) && AllFresh(Performing(marked)) && AllBacked(Performing(marked), price)
      && (forall t :: t in Failing(marked) ==> !Backed(t, price))
  {
    var marked := Recompute(MarkPrice(ts, price));
    MarkedTable(ts, price);
    LiquidationSplits(marked);
    forall t | t in marked
      ensures Sound(t) && Fresh(t) && t.etherPrice == price && (t.crCurrent >= CR_MINIMUM <==> Backed(t, price))
    {
      RatioMeansBacked(t);
    }
    forall i | 0 <= i < |Performing(marked)|
      ensures Sound(Performing(marked)[i]) && Fresh(Performing(marked)[i]) && Backed(Performing(marked)[i], price)
    {
      assert Performing(marked)[i] in Performing(marked);
    }
  }

  lemma BackedIsPerforming(t: Trove)
    requires Sound(t) && Backed(t, t.etherPrice)
    ensures Renewed(t).crCurrent >= CR_MINIMUM
  {
    RatioMeansBacked(Renewed(t));
  }

  lemma BackedSurvives(ts: seq<Trove>, i: nat)
    requires AllSound(ts) && i < |ts| && Backed(ts[i], ts[i].etherPrice)
    ensures Renewed(ts[i]) in Performing(Recompute(ts))
  {
    BackedIsPerforming(ts[i]);
    hide Renewed, Backed, Performing;
    LiquidationSplits(Recompute(ts));
    assert Recompute(ts)[i] == Renewed(ts[i]);
  }

  // What the stability pool gains from a liquidation: the collateral at the ether price, less the
  // debt at the previous stablecoin price.
  function LiquidationGain(failing: seq<Trove>, etherPrice: real, price: real): real
  {
    TotalEther(failing) * etherPrice - TotalSupply(failing) * price
  }

  // The gain is the value of the liquidated collateral less the value of the liquidated debt.
  ghost predicate GainIs(gain: real, ether: real, etherPrice: real, debt: real, price: real)
  {
    gain + debt * price == ether * etherPrice
  }

  // The gain is at most 1.1 less the price, per unit of debt, and below it unless there is no debt.
  ghost predicate GainWithin(gain: real, debt: real, price: real)
  {
    gain <= (CR_MINIMUM - price) * debt && (debt > 0.0 ==> gain < (CR_MINIMUM - price) * debt)
  }

  // Only troves that are not backed are liquidated, so their collateral is worth less than 1.1
  // times their debt.
  lemma LiquidationGainIsBounded(ts: seq<Trove>, etherPrice: real, price: real)
    requires AllSound(ts) && etherPrice > 0.0
    ensures var failing := Failing(Recompute(MarkPrice(ts, etherPrice)));
      GainWithin(LiquidationGain(failing, etherPrice, price), TotalSupply(failing), price)
  {
    FailingIsUnbacked(ts, etherPrice);
    GainBelow(Failing(Recompute(MarkPrice(ts, etherPrice))), etherPrice, price);
  }

  lemma FailingIsUnbacked(ts: seq<Trove>, etherPrice: real)
    requires AllSound(ts) && etherPrice > 0.0
    ensures var failing := Failing(Recompute(MarkPrice(ts, etherPrice)));
      forall i :: 0 <= i < |failing| ==> failing[i].etherPrice == etherPrice && !Backed(failing[i], etherPrice)
  {
    hide TrueRatio, Backed;
    var failing := Failing(Recompute(MarkPrice(ts, etherPrice)));
    MarkedTable(ts, etherPrice);
    LiquidationKeepsBacked(ts, etherPrice);
    LiquidationSplits(Recompute(MarkPrice(ts, etherPrice)));
    forall i | 0 <= i < |failing|
      ensures failing[i].etherPrice == etherPrice && !Backed(failing[i], etherPrice)
    {
      assert failing[i] in failing;
    }
  }

  lemma GainBelow(ts: seq<Trove>, etherPrice: real, price: real)
    requires forall i :: 0 <= i < |ts| ==> ts[i].etherPrice == etherPrice && !Backed(ts[i], etherPrice)
    ensures GainWithin(LiquidationGain(ts, etherPrice, price), TotalSupply(ts), price)
  {
    CollateralOfUnbacked(ts, etherPrice);
    DifferenceScaled(price, CR_MINIMUM, TotalSupply(ts));
    assert ts == [] ==> TotalSupply(ts) == 0.0;
  }

  lemma {:induction false} CollateralOfUnbacked(ts: seq<Trove>, price: real)
    requires forall i :: 0 <= i < |ts| ==> ts[i].etherPrice == price && !Backed(ts[i], price)
    ensures TotalEther(ts) * price <= CR_MINIMUM * TotalSupply(ts)
    ensures ts != [] ==> TotalEther(ts) * price < CR_MINIMUM * TotalSupply(ts)
  {
    if ts == [] {
    } else {
      var n := |ts| - 1;
      CollateralOfUnbacked(ts[..n], price);
      Distribute(price, TotalEther(ts[..n]), ts[n].etherQuantity);
    }
  }

  // The collateral is worth less than 1.1 times the debt at the given ether price.
  ghost predicate Unbacked(t: Trove, price: real)
  {
    price * t.etherQuantity < 1.1 * t.supply
  }

  ghost function UnbackedIndices(ts: seq<Trove>, price: real): set<nat>
  {
    set i: nat | i < |ts| && Unbacked(ts[i], price)
  }

  lemma UnbackedFails(t: Trove, price: real)
    requires Sound(t) && price > 0.0
    ensures Renewed(t.(etherPrice := price)).crCurrent < CR_MINIMUM <==> Unbacked(t, price)
  {
    RatioMeansBacked(Renewed(t.(etherPrice := price)));
  }

  // As many rows are liquidated as are not backed at the new price.
  lemma LiquidationCount(ts: seq<Trove>, price: real)
    requires AllSound(ts) && price > 0.0
    ensures |Failing(Recompute(MarkPrice(ts, price)))| == |UnbackedIndices(ts, price)|
  {
    var marked := Recompute(MarkPrice(ts, price));
    RowsLength(marked, FailingIndices(marked));
    forall i: nat | i < |ts|
      ensures marked[i].crCurrent < CR_MINIMUM <==> Unbacked(ts[i], price)
    {
      UnbackedFails(ts[i], price);
    }
    hide Unbacked, Renewed;
    assert Below(FailingIndices(marked), |marked|) == UnbackedIndices(ts, price);
  }

  // What liquidating at a new ether price does, in terms of the table before.
  ghost predicate Liquidates(before: seq<Trove>, after: seq<Trove>, price: real, debt: real, ether: real, count: nat)
  {
    && AllSound(after) && AllFresh(after) && AllBacked(after, price)
    && (forall i :: 0 <= i < |before| && Backed(before[i], price) ==>
          before[i].supply != 0.0 && Renewed(before[i]) in after)
    && TotalSupply(after) + debt == TotalSupply(before)
    && TotalEther(after) + ether == TotalEther(before)
    && |after| + count == |before| && count == |UnbackedIndices(before, price)|
  }

  lemma LiquidationLiquidates(ts: seq<Trove>, price: real)
    requires AllSound(ts) && price > 0.0 && forall i :: 0 <= i < |ts| ==> ts[i].etherPrice == price
    ensures var failing := Failing(Recompute(ts));
      Liquidates(ts, Performing(Recompute(ts)), price, TotalSupply(failing), TotalEther(failing), |failing|)
  {
    hide TrueRatio, Backed, Performing, Failing, TotalSupply, TotalEther, UnbackedIndices;
    assert MarkPrice(ts, price) == ts;
    MarkedTable(ts, price);
    LiquidationKeepsBacked(ts, price);
    LiquidationSplits(Recompute(ts));
    LiquidationCount(ts, price);
    forall i | 0 <= i < |ts| && Backed(ts[i], price)
      ensures Renewed(ts[i]) in Performing(Recompute(ts))
    {
      BackedSurvives(ts, i);
    }
  }
}
