// Adjusting: owners whose recorded ratio has drifted out of their band restore the chosen ratio.

module Adjusting {
  import opened Arithmetic
  import opened Troves
  import opened Liquidation

  // How far the recorded ratio is from the chosen one, in units of the owner's inattention.
  function Check(t: Trove): real
    requires t.crInitial != 0.0 && t.inattention != 0.0
  {
    (t.crCurrent - t.crInitial) / (t.crInitial * t.inattention)
  }

  predicate InBand(t: Trove)
    requires t.crInitial != 0.0 && t.inattention != 0.0
  {
    -1.0 <= Check(t) <= 2.0
  }

  predicate Adjustable(t: Trove)
  {
    t.etherPrice != 0.0 && t.crInitial != 0.0 && t.inattention != 0.0
  }

  // One row of `adjust_troves`: an owner outside the band restores the chosen ratio, by moving
  // debt when the row's draw `p` reaches the step's `ratio`, by moving collateral otherwise.
  function AdjustRow(t: Trove, p: real, ratio: real): Trove
    requires Adjustable(t)
  {
    if p >= ratio then
      if Check(t) < -1.0 || Check(t) > 2.0 then
        t.(supply := t.etherPrice * t.etherQuantity / t.crInitial)
      else t
    else if Check(t) < -1.0 || Check(t) > 2.0 then
      t.(etherQuantity := t.crInitial * t.supply / t.etherPrice)
    else t
  }

  function AdjustFee(t: Trove, p: real, ratio: real, rate: real): real
    requires Adjustable(t)
  {
    if p >= ratio && Check(t) > 2.0 then rate * (AdjustRow(t, p, ratio).supply - t.supply) else 0.0
  }

  function Adjust(ts: seq<Trove>, draws: nat -> real, ratio: real): seq<Trove>
    requires forall i :: 0 <= i < |ts| ==> Adjustable(ts[i])
  {
    seq(|ts|, i requires 0 <= i < |ts| && Adjustable(ts[i]) => AdjustRow(ts[i], draws(i), ratio))
  }

  function Fees(ts: seq<Trove>, draws: nat -> real, ratio: real, rate: real): seq<real>
    requires forall i :: 0 <= i < |ts| ==> Adjustable(ts[i])
  {
    seq(|ts|, i requires 0 <= i < |ts| && Adjustable(ts[i]) => AdjustFee(ts[i], draws(i), ratio, rate))
  }

  // The fee that `adjust_troves` accumulates over its loop.
  function AdjustFees(ts: seq<Trove>, draws: nat -> real, ratio: real, rate: real): real
    requires forall i :: 0 <= i < |ts| ==> Adjustable(ts[i])
  {
    Sum(Fees(ts, draws, ratio, rate))
  }

  // The sign of the check compares the recorded ratio with the chosen one.
  lemma CheckSign(t: Trove)
    requires Sound(t)
    ensures Check(t) > 0.0 <==> t.crCurrent > t.crInitial
    ensures Check(t) < 0.0 <==> t.crCurrent < t.crInitial
  {
    var unit := t.crInitial * t.inattention;
    assert unit > 0.0;
    assert Check(t) * unit == t.crCurrent - t.crInitial;
  }

  // The band in terms of the ratios: the recorded one is at most `inattention` below the chosen one
  // and at most twice that above it, as a part of the chosen one.
  ghost predicate WithinBounds(t: Trove)
  {
    t.crInitial * (1.0 - t.inattention) <= t.crCurrent <= t.crInitial * (1.0 + 2.0 * t.inattention)
  }

  lemma BandBounds(t: Trove)
    requires Sound(t)
    ensures Check(t) < -1.0 <==> t.crCurrent < t.crInitial * (1.0 - t.inattention)
    ensures Check(t) > 2.0 <==> t.crCurrent > t.crInitial * (1.0 + 2.0 * t.inattention)
    ensures InBand(t) <==> WithinBounds(t)
  {
    var unit := t.crInitial * t.inattention;
    SignOfProduct(t.crInitial, t.inattention);
    Quotient(t.crCurrent - t.crInitial, unit);
    DriftInUnits(t.crCurrent - t.crInitial, unit, Check(t));
    BoundsOf(t.crInitial, t.inattention, unit);
  }

  lemma DriftInUnits(drift: real, unit: real, check: real)
    requires unit > 0.0 && check * unit == drift
    ensures check < -1.0 <==> drift < -unit
    ensures check > 2.0 <==> drift > 2.0 * unit
  {
    SignOfProduct(check + 1.0, unit);
    SignOfProduct(check - 2.0, unit);
    DifferenceScaled(-1.0, check, unit);
    DifferenceScaled(2.0, check, unit);
  }

  lemma BoundsOf(chosen: real, inattention: real, unit: real)
    requires unit == chosen * inattention
    ensures chosen * (1.0 - inattention) == chosen - unit
    ensures chosen * (1.0 + 2.0 * inattention) == chosen + 2.0 * unit
  {
  }

  // What adjusting does to a row, whatever the draws. Within the bounds nothing changes. Outside them
  // the true ratio becomes the chosen ratio, with only the debt moved or only the collateral moved,
  // and the recorded ratio is left stale.
  ghost predicate Adjusts(t: Trove, a: Trove, p: real, ratio: real)
  {
    && Sound(a)
    && a == t.(supply := a.supply, etherQuantity := a.etherQuantity)
    && (WithinBounds(t) ==> a == t)
    && (!WithinBounds(t) ==> TrueRatio(a) == t.crInitial)
    && (p >= ratio ==> a.etherQuantity == t.etherQuantity)
    && (p < ratio ==> a.supply == t.supply)
  }

  // Every sound row is adjusted, each by its own draw.
  ghost predicate AdjustsEach(before: seq<Trove>, after: seq<Trove>, draws: nat -> real, ratio: real)
  {
    && |after| == |before|
    && forall i :: 0 <= i < |before| && Sound(before[i]) ==> Adjusts(before[i], after[i], draws(i), ratio)
  }

  lemma AdjustRowEffect(t: Trove, p: real, ratio: real)
    requires Sound(t)
    ensures InBand(t) <==> WithinBounds(t)
    ensures Adjusts(t, AdjustRow(t, p, ratio), p, ratio)
  {
    BandBounds(t);
    hide WithinBounds;
    if !InBand(t) {
      if p >= ratio {
        assert t.etherPrice * t.etherQuantity > 0.0;
        RestoredRatio(t.etherPrice * t.etherQuantity, t.crInitial);
      } else {
        var a := AdjustRow(t, p, ratio);
        assert t.crInitial * t.supply > 0.0;
        assert a.etherPrice * a.etherQuantity == t.crInitial * t.supply;
        assert a.etherPrice * a.etherQuantity / a.supply == t.crInitial;
      }
    }
  }

  lemma AdjustIsEach(ts: seq<Trove>, draws: nat -> real, ratio: real)
    requires forall i :: 0 <= i < |ts| ==> Adjustable(ts[i])
    ensures AdjustsEach(ts, Adjust(ts, draws, ratio), draws, ratio)
  {
    hide Adjusts, AdjustRow;
    forall i | 0 <= i < |ts| && Sound(ts[i])
      ensures Adjusts(ts[i], Adjust(ts, draws, ratio)[i], draws(i), ratio)
    {
      AdjustRowEffect(ts[i], draws(i), ratio);
    }
  }

  // Debt rises exactly for the owners who are above the band and adjust through debt.
  lemma AdjustRowMints(t: Trove, p: real, ratio: real, rate: real)
    requires Sound(t) && Fresh(t)
    ensures var rise := AdjustRow(t, p, ratio).supply - t.supply;
      && (rise > 0.0 <==> p >= ratio && Check(t) > 2.0)
      && AdjustFee(t, p, ratio, rate) == rate * Rise(t, AdjustRow(t, p, ratio))
  {
    AdjustRowEffect(t, p, ratio);
    CheckSign(t);
    var a := AdjustRow(t, p, ratio);
    if p >= ratio && !InBand(t) {
      var value := t.etherPrice * t.etherQuantity;
      assert t.crCurrent * t.supply == value;
      assert a.supply * t.crInitial == value;
      EqualProductsOppose(t.crCurrent, t.supply, t.crInitial, a.supply);
    }
  }

  // A row whose true ratio is the chosen one is backed.
  lemma AdjustRowBacked(t: Trove, p: real, ratio: real, price: real)
    requires Sound(t) && Backed(t, price)
    ensures Backed(AdjustRow(t, p, ratio), price)
  {
    AdjustRowEffect(t, p, ratio);
    var a := AdjustRow(t, p, ratio);
    if !InBand(t) {
      RatioMeansBacked(a.(crCurrent := TrueRatio(a)));
    }
  }

  // Adjusting restores the band: with ratios recomputed at the same price, no row is left out.
  lemma AdjustRestoresBand(ts: seq<Trove>, draws: nat -> real, ratio: real)
    requires AllSound(ts) && AllFresh(ts)
    ensures AllSound(Adjust(ts, draws, ratio))
    ensures var after := Recompute(Adjust(ts, draws, ratio));
      forall i :: 0 <= i < |after| ==> Sound(after[i]) && InBand(after[i])
  {
    forall i | 0 <= i < |ts|
      ensures
        var a := AdjustRow(ts[i], draws(i), ratio);
        Sound(a) && InBand(a.(crCurrent := TrueRatio(a)))
    {
      AdjustRowEffect(ts[i], draws(i), ratio);
      var a := AdjustRow(ts[i], draws(i), ratio);
      CheckSign(a.(crCurrent := TrueRatio(a)));
    }
    assert AllSound(Adjust(ts, draws, ratio));
  }

  // A row in the band rests.
  lemma InBandRests(t: Trove, p: real, ratio: real, rate: real)
    requires Sound(t) && InBand(t)
    ensures AdjustRow(t, p, ratio) == t && AdjustFee(t, p, ratio, rate) == 0.0
  {
  }

  // A row already at its chosen ratio rests too, even if its recorded ratio says otherwise.
  lemma RestoredRests(t: Trove, p: real, ratio: real, rate: real)
    requires Sound(t) && TrueRatio(t) == t.crInitial
    ensures AdjustRow(t, p, ratio) == t && AdjustFee(t, p, ratio, rate) == 0.0
  {
    var value := t.etherPrice * t.etherQuantity;
    assert value == t.crInitial * t.supply;
    assert value / t.crInitial == t.supply;
    assert t.crInitial * t.supply / t.etherPrice == t.etherQuantity;
  }

  // ... and it is idempotent: adjusting again, with any other draws, changes nothing and charges
  // no fee. This holds on recomputed ratios and also on the stale ones that the source keeps.
  lemma AdjustRowIdempotent(t: Trove, p: real, ratio: real, p': real, ratio': real, rate: real)
    requires Sound(t) && Fresh(t)
    ensures var a := AdjustRow(t, p, ratio);
      Sound(a) && AdjustRow(a, p', ratio') == a && AdjustFee(a, p', ratio', rate) == 0.0
    ensures var r := AdjustRow(t, p, ratio); var a := r.(crCurrent := TrueRatio(r));
      Sound(a) && AdjustRow(a, p', ratio') == a && AdjustFee(a, p', ratio', rate) == 0.0
  {
    AdjustRowEffect(t, p, ratio);
    var a := AdjustRow(t, p, ratio);
    if InBand(t) {
      InBandRests(t, p', ratio', rate);
    } else {
      RestoredRests(a, p', ratio', rate);
      RestoredRests(a.(crCurrent := TrueRatio(a)), p', ratio', rate);
    }
  }

  lemma AdjustIdempotent(ts: seq<Trove>, draws: nat -> real, ratio: real,
                                            draws': nat -> real, ratio': real, rate: real)
    requires AllSound(ts) && AllFresh(ts)
    ensures AllSound(Adjust(ts, draws, ratio))
    ensures var once := Adjust(ts, draws, ratio);
      Adjust(once, draws', ratio') == once && AdjustFees(once, draws', ratio', rate) == 0.0
    ensures var once := Recompute(Adjust(ts, draws, ratio));
      && AllSound(once)
      && Adjust(once, draws', ratio') == once && AdjustFees(once, draws', ratio', rate) == 0.0
  {
    AdjustRestoresBand(ts, draws, ratio);
    var once := Adjust(ts, draws, ratio);
    var renewed := Recompute(once);
    forall i | 0 <= i < |ts|
      ensures AdjustRow(once[i], draws'(i), ratio') == once[i] && AdjustFee(once[i], draws'(i), ratio', rate) == 0.0
      ensures AdjustRow(renewed[i], draws'(i), ratio') == renewed[i]
      ensures AdjustFee(renewed[i], draws'(i), ratio', rate) == 0.0
    {
      AdjustRowIdempotent(ts[i], draws(i), ratio, draws'(i), ratio', rate);
    }
    SumOfZeros(Fees(once, draws', ratio', rate));
    SumOfZeros(Fees(renewed, draws', ratio', rate));
  }

  // The true ratio that adjusting leaves a trove with, whatever the draws.
  function Settled(t: Trove): real
    requires t.crInitial != 0.0 && t.inattention != 0.0
  {
    if InBand(t) then t.crCurrent else t.crInitial
  }

  lemma AdjustRowSettles(t: Trove, p: real, ratio: real)
    requires Sound(t) && Fresh(t)
    ensures Sound(AdjustRow(t, p, ratio)) && TrueRatio(AdjustRow(t, p, ratio)) == Settled(t)
    ensures AdjustRow(t, p, ratio).crCurrent == t.crCurrent
  {
    AdjustRowEffect(t, p, ratio);
  }

  // The recorded ratio goes stale exactly on the rows that adjusted. Redemption sorts by it.
  lemma AdjustLeavesStale(t: Trove, p: real, ratio: real)
    requires Sound(t) && Fresh(t)
    ensures Fresh(AdjustRow(t, p, ratio)) <==> InBand(t)
  {
    AdjustRowEffect(t, p, ratio);
    CheckSign(t);
  }

  // The fee of the whole phase is the rate times the debt minted by the rows that minted.
  lemma AdjustFeesAreMint(ts: seq<Trove>, draws: nat -> real, ratio: real, rate: real)
    requires AllSound(ts) && AllFresh(ts)
    ensures AdjustFees(ts, draws, ratio, rate) == rate * GrossIncrease(ts, Adjust(ts, draws, ratio))
  {
    hide TrueRatio, AdjustRow, AdjustFee;
    var after := Adjust(ts, draws, ratio);
    forall i | 0 <= i < |ts|
      ensures Fees(ts, draws, ratio, rate)[i] == rate * Rises(ts, after)[i]
    {
      AdjustFeeAt(ts, draws, ratio, rate, i);
    }
    SumScaled(Fees(ts, draws, ratio, rate), Rises(ts, after), rate);
  }

  lemma AdjustFeeAt(ts: seq<Trove>, draws: nat -> real, ratio: real, rate: real, i: nat)
    requires AllSound(ts) && AllFresh(ts) && i < |ts|
    ensures Fees(ts, draws, ratio, rate)[i] == rate * Rises(ts, Adjust(ts, draws, ratio))[i]
  {
    AdjustRowMints(ts[i], draws(i), ratio, rate);
  }

  lemma AdjustKeeps(ts: seq<Trove>, draws: nat -> real, ratio: real, price: real)
    requires AllSound(ts) && AllFresh(ts) && AllBacked(ts, price)
    ensures AllSound(Adjust(ts, draws, ratio)) && AllBacked(Adjust(ts, draws, ratio), price)
  {
    AdjustRestoresBand(ts, draws, ratio);
    forall i | 0 <= i < |ts|
      ensures Backed(Adjust(ts, draws, ratio)[i], price)
    {
      AdjustRowBacked(ts[i], draws(i), ratio, price);
    }
  }
}
