// Does redemption take the truly riskiest troves first? It sorts by the recorded ratio, which the
// adjusting phase does not refresh. This module gives the exact condition.

module RiskOrder {
  import opened Arithmetic
  import opened PriceCurve
  import opened Troves
  import opened Adjusting
  import opened Opening
  import opened Redemption
  import opened Stabilizer
  import opened Reachability
  import opened Machine

  // The ratio a trove is sorted by, and the ratio it really has when the market clears.
  datatype Risk = Risk(recorded: real, settled: real)

  // A trove recorded at or below another really is at or below it.
  ghost predicate RanksTruly(risks: seq<Risk>)
  {
    forall i, j :: 0 <= i < |risks| && 0 <= j < |risks| && risks[i].recorded <= risks[j].recorded ==>
      risks[i].settled <= risks[j].settled
  }

  ghost function TrueRisks(ts: seq<Trove>): seq<Risk>
    requires AllSound(ts)
  {
    seq(|ts|, i requires 0 <= i < |ts| && Sound(ts[i]) => Risk(ts[i].crCurrent, TrueRatio(ts[i])))
  }

  // The trove pays something, in full or in part.
  ghost predicate Touched(order: seq<Trove>, pool: real, i: nat)
    requires Redeemable(order, pool)
  {
    i < NumberRedeemed(order, pool) || (i == NumberRedeemed(order, pool) && Residual(order, pool) > 0.0)
  }

  // No touched trove has a higher true ratio than an untouched one.
  ghost predicate TrulyRiskiestFirst(order: seq<Trove>, pool: real)
    requires AllSound(order) && Redeemable(order, pool)
  {
    forall i, j :: 0 <= i < |order| && 0 <= j < |order| && Touched(order, pool, i) && !Touched(order, pool, j) ==>
      TrueRatio(order[i]) <= TrueRatio(order[j])
  }

  lemma OrderIsSound(order: seq<Trove>, ts: seq<Trove>)
    requires AscendingOrder(order, ts) && AllSound(ts)
    ensures AllSound(order)
  {
    OrderIsTable(order, ts);
    forall i | 0 <= i < |order|
      ensures Sound(order[i])
    {
      assert order[i] in ts;
    }
  }

  // ----- A table that ranks truly is redeemed truly riskiest first -----

  lemma TrueRankOfPair(order: seq<Trove>, ts: seq<Trove>, i: nat, j: nat)
    requires AscendingOrder(order, ts) && AllSound(ts) && RanksTruly(TrueRisks(ts))
    requires i < j < |order|
    ensures Sound(order[i]) && Sound(order[j]) && TrueRatio(order[i]) <= TrueRatio(order[j])
  {
    hide TrueRatio, Sound;
    OrderIsTable(order, ts);
    assert order[i] in ts && order[j] in ts;
    var a :| 0 <= a < |ts| && ts[a] == order[i];
    var b :| 0 <= b < |ts| && ts[b] == order[j];
    assert TrueRisks(ts)[a].recorded <= TrueRisks(ts)[b].recorded;
  }

  lemma RankedIsTrulyFirst(order: seq<Trove>, ts: seq<Trove>, pool: real)
    requires AscendingOrder(order, ts) && AllSound(ts) && RanksTruly(TrueRisks(ts)) && Redeemable(order, pool)
    ensures AllSound(order) && TrulyRiskiestFirst(order, pool)
  {
    hide RanksTruly, AscendingOrder, Redeemable, TrueRatio;
    OrderIsSound(order, ts);
    forall i, j | 0 <= i < |order| && 0 <= j < |order| && Touched(order, pool, i) && !Touched(order, pool, j)
      ensures TrueRatio(order[i]) <= TrueRatio(order[j])
    {
      TrueRankOfPair(order, ts, i, j);
    }
  }

  // ----- A misranked pair is redeemed in the wrong order by some allowed sort and pool -----

  lemma SwapEqualRanks(order: seq<Trove>, a: nat, b: nat)
    requires Ascending(order) && a < b < |order| && order[a].crCurrent == order[b].crCurrent
    ensures Ascending(order[a := order[b]][b := order[a]])
    ensures multiset(order[a := order[b]][b := order[a]]) == multiset(order)
  {
    var swapped := order[a := order[b]][b := order[a]];
    assert forall i :: 0 <= i < |order| ==> swapped[i].crCurrent == order[i].crCurrent;
  }

  // An ascending order in which the safer trove of a misranked pair comes first.
  lemma MisrankedOrder(ts: seq<Trove>, safer: Trove, riskier: Trove)
    returns (order: seq<Trove>, a: nat, b: nat)
    requires safer in ts && riskier in ts && safer != riskier && safer.crCurrent <= riskier.crCurrent
    ensures AscendingOrder(order, ts) && a < b < |order| && order[a] == safer && order[b] == riskier
  {
    order := AscendingOrderExists(ts);
    OrderIsTable(order, ts);
    assert safer in order && riskier in order;
    a :| 0 <= a < |order| && order[a] == safer;
    b :| 0 <= b < |order| && order[b] == riskier;
    if b < a {
      SwapEqualRanks(order, b, a);
      order := order[b := order[a]][a := order[b]];
      a, b := b, a;
    }
  }

  // Redeeming everything before place a and half of the trove at a touches that trove and no later one.
  ghost function PoolReaching(order: seq<Trove>, a: nat): real
    requires a < |order|
  {
    TotalSupply(order[..a]) + 0.5 * order[a].supply
  }

  lemma PoolReaches(order: seq<Trove>, a: nat)
    requires AllSound(order) && a < |order|
    ensures 0.0 < PoolReaching(order, a) && Redeemable(order, PoolReaching(order, a))
    ensures forall i :: 0 <= i < |order| ==> (Touched(order, PoolReaching(order, a), i) <==> i <= a)
  {
    var pool := PoolReaching(order, a);
    assert order[..0] == [] && order[..|order|] == order;
    PrefixStep(order, a);
    PrefixesGrow(order, 0, a);
    PrefixesGrow(order, a + 1, |order|);
    RedeemedPrefixIsMaximal(order, pool, a);
    RedeemedPrefixIsMaximal(order, pool, a + 1);
  }

  lemma MisrankedPairShows(ts: seq<Trove>, i: nat, j: nat) returns (order: seq<Trove>, pool: real)
    requires AllSound(ts) && i < |ts| && j < |ts|
    requires ts[i].crCurrent <= ts[j].crCurrent && TrueRatio(ts[i]) > TrueRatio(ts[j])
    ensures AscendingOrder(order, ts) && AllSound(order) && Redeemable(order, pool) && pool > 0.0
    ensures !TrulyRiskiestFirst(order, pool)
  {
    var a, b;
    order, a, b := MisrankedOrder(ts, ts[i], ts[j]);
    OrderIsSound(order, ts);
    pool := PoolReaching(order, a);
    PoolReaches(order, a);
    assert Touched(order, pool, a) && !Touched(order, pool, b);
  }

  // ----- The condition for a market -----

  // The floor branch redeems the truly riskiest troves first.
  ghost predicate FloorIsTrulyFirst(ts: seq<Trove>, mk: Market, d: MarketDraws)
    requires Admissible(ts, mk, d) && AtFloor(ts, mk, d)
  {
    FloorPoolFits(ts, mk, d);
    OrderIsSound(d.order, ts);
    TrulyRiskiestFirst(d.order, FloorPool(ts, mk, d))
  }

  lemma RankedFloor(ts: seq<Trove>, mk: Market, d: MarketDraws)
    requires Admissible(ts, mk, d) && AtFloor(ts, mk, d) && RanksTruly(TrueRisks(ts))
    ensures FloorIsTrulyFirst(ts, mk, d)
  {
    hide TrulyRiskiestFirst, RanksTruly;
    FloorPoolFits(ts, mk, d);
    RankedIsTrulyFirst(d.order, ts, FloorPool(ts, mk, d));
  }

  // Draws at the floor that redeem exactly `pool`, in the given order.
  lemma FloorWithPool(ts: seq<Trove>, mk: Market, order: seq<Trove>, pool: real) returns (d: MarketDraws)
    requires MarketReady(mk) && mk.rateRedemption < 1.0
    requires AllSound(ts) && AscendingOrder(order, ts) && 0.0 < pool < TotalSupply(ts)
    ensures Admissible(ts, mk, d) && AtFloor(ts, mk, d) && d.order == order && FloorPrice(mk) > 0.0
    ensures FloorPool(ts, mk, d) == pool
  {
    hide OnCurve, LiquidityAt, Demand, Cap;
    var ratio := pool / TotalSupply(ts);
    Quotient(pool, TotalSupply(ts));
    SignOfProduct(ratio, TotalSupply(ts));
    FactorOrder(TotalSupply(ts), ratio, 1.0);
    var q := 1.0 - ratio;
    CappedIsReachable(ts, mk, q, order);
    d := DrawsAt(ts, mk, FloorPrice(mk) * q, 1.0 - q, order);
    assert 1.0 - q == ratio;
    CapOf(ratio, TotalSupply(ts), pool);
  }

  lemma MisrankedFloor(ts: seq<Trove>, mk: Market) returns (d: MarketDraws)
    requires MarketReady(mk) && mk.rateRedemption < 1.0 && AllSound(ts) && !RanksTruly(TrueRisks(ts))
    ensures Admissible(ts, mk, d) && AtFloor(ts, mk, d) && !FloorIsTrulyFirst(ts, mk, d)
  {
    var risks := TrueRisks(ts);
    var i, j :| 0 <= i < |risks| && 0 <= j < |risks| && risks[i].recorded <= risks[j].recorded &&
      risks[i].settled > risks[j].settled;
    var order, pool := MisrankedPairShows(ts, i, j);
    OrderIsTable(order, ts);
    hide TrulyRiskiestFirst;
    d := FloorWithPool(ts, mk, order, pool);
  }

  // The exact condition, for any table and any ready market whose floor is positive: every
  // redemption at the floor takes the truly riskiest troves first if and only if the recorded
  // column ranks the troves as their true ratios do.
  lemma TrulyFirstIffRanked(ts: seq<Trove>, mk: Market)
    requires MarketReady(mk) && mk.rateRedemption < 1.0 && AllSound(ts)
    ensures (forall d :: Admissible(ts, mk, d) && AtFloor(ts, mk, d) ==> FloorIsTrulyFirst(ts, mk, d))
      <==> RanksTruly(TrueRisks(ts))
  {
    hide RanksTruly, FloorIsTrulyFirst, Admissible, AtFloor;
    if RanksTruly(TrueRisks(ts)) {
      forall d | Admissible(ts, mk, d) && AtFloor(ts, mk, d)
        ensures FloorIsTrulyFirst(ts, mk, d)
      {
        RankedFloor(ts, mk, d);
      }
    } else {
      var d := MisrankedFloor(ts, mk);
    }
  }

  // ----- The condition before adjusting -----

  // What the sorted table will be ranked by and will really hold, known before any owner adjusts:
  // an owner in the band keeps the recorded ratio, one outside it goes to the chosen ratio, and an
  // entering trove has the ratio it is opened at.
  ghost function SettledRisks(remaining: seq<Trove>, openings: seq<Opening>): seq<Risk>
    requires AllSound(remaining)
  {
    seq(|remaining|, i requires 0 <= i < |remaining| && Sound(remaining[i]) =>
      Risk(remaining[i].crCurrent, Settled(remaining[i])))
    + seq(|openings|, i requires 0 <= i < |openings| => Risk(openings[i].crRatio, openings[i].crRatio))
  }

  lemma OfferedRisks(s: seq<Trove>, d: Draws)
    requires Plays(s, d)
    ensures TrueRisks(PhasesOf(s, d).Offered()) == SettledRisks(PhasesOf(s, d).remaining, d.openings)
  {
    var ph := PhasesOf(s, d);
    var risks, settled := TrueRisks(ph.Offered()), SettledRisks(ph.remaining, d.openings);
    assert |risks| == |settled|;
    forall i | 0 <= i < |risks|
      ensures risks[i] == settled[i]
    {
      var n := |ph.remaining|;
      if i < n {
        AdjustRowSettles(ph.remaining[i], d.uniforms(i), d.ratio);
      } else {
        OpenTroveKeeps(d.openings[i - n], d.etherPrice);
      }
    }
  }

  // The exact condition for a step, stated before the adjusting phase and free of its draws.
  lemma StepIsTrulyFirstIff(s: State, d: Draws)
    requires Inv(s) && s.running && Plays(s.troves, d)
    requires TotalSupply(s.troves) > 0.0  // as in every running state; it makes the rate defined
    requires MarketOf(s, d).rateRedemption < 1.0
    ensures var offered, mk := PhasesOf(s.troves, d).Offered(), MarketOf(s, d);
      (forall md :: Admissible(offered, mk, md) && AtFloor(offered, mk, md) ==> FloorIsTrulyFirst(offered, mk, md))
        <==> RanksTruly(SettledRisks(PhasesOf(s.troves, d).remaining, d.openings))
  {
    hide RanksTruly, FloorIsTrulyFirst, Admissible, AtFloor;
    LastRowSound(s);
    RateNonNegative(s);
    OfferedRisks(s.troves, d);
    TrulyFirstIffRanked(PhasesOf(s.troves, d).Offered(), MarketOf(s, d));
  }

  // The column itself is true for the whole sorted table exactly when every owner who remains is
  // in the band. Ranking truly asks for less: settled ratios may differ from recorded ones as long
  // as the order agrees.
  lemma SortColumnIsTrue(ts: seq<Trove>, d: Draws)
    requires Plays(ts, d)
    ensures AllFresh(PhasesOf(ts, d).Offered()) <==>
      forall i :: 0 <= i < |PhasesOf(ts, d).remaining| ==> InBand(PhasesOf(ts, d).remaining[i])
  {
    var ph := PhasesOf(ts, d);
    OpenedKeep(d.openings, d.etherPrice);
    forall i | 0 <= i < |ph.remaining|
      ensures Fresh(ph.adjusted[i]) <==> InBand(ph.remaining[i])
      ensures ph.Offered()[i] == ph.adjusted[i]
    {
      AdjustLeavesStale(ph.remaining[i], d.uniforms(i), d.ratio);
    }
    if AllFresh(ph.Offered()) {
      forall i | 0 <= i < |ph.remaining|
        ensures InBand(ph.remaining[i])
      {
        assert Fresh(ph.Offered()[i]);
      }
    }
  }

  // ----- A table on which the order is wrong -----

  // The first owner mints from ratio 4 down to the chosen 2 but keeps the recorded 4; every
  // ascending order then puts the trove at ratio 3 first.
  const DRIFTED: Trove := Trove(1.0, 4.0, 2.0, 1.0, 0.25, 4.0)
  const MINTED: Trove := Trove(1.0, 4.0, 2.0, 2.0, 0.25, 4.0)
  const CALM: Trove := Trove(1.0, 3.0, 3.0, 1.0, 0.25, 3.0)

  lemma DriftedMints(p: real, ratio: real)
    requires p >= ratio
    ensures AdjustRow(DRIFTED, p, ratio) == MINTED
  {
    assert DRIFTED.crInitial * DRIFTED.inattention == 0.5;
    assert Check(DRIFTED) == 2.0 / 0.5;
  }

  lemma CalmRests(p: real, ratio: real)
    ensures AdjustRow(CALM, p, ratio) == CALM
  {
    CheckSign(CALM);
  }

  lemma ExampleTable(draws: nat -> real, ratio: real)
    requires draws(0) >= ratio
    ensures AllSound([DRIFTED, CALM]) && AllFresh([DRIFTED, CALM]) && AllBacked([DRIFTED, CALM], 1.0)
    ensures Adjust([DRIFTED, CALM], draws, ratio) == [MINTED, CALM]
    ensures AllSound([MINTED, CALM]) && TotalSupply([MINTED, CALM]) == 3.0
    ensures TrueRatio(MINTED) == 2.0 && TrueRatio(CALM) == 3.0
  {
    DriftedMints(draws(0), ratio);
    CalmRests(draws(1), ratio);
    assert Adjust([DRIFTED, CALM], draws, ratio) == [MINTED, CALM];
    TotalSupplyAppend([], MINTED);
    TotalSupplyAppend([MINTED], CALM);
    assert [] + [MINTED] == [MINTED] && [MINTED] + [CALM] == [MINTED, CALM];
  }

  // Every admissible redemption of less than one unit pays down the trove at ratio 3 and leaves the
  // one at ratio 2 untouched.
  lemma SmallRedemption(mk: Market, d: MarketDraws)
    requires Admissible([MINTED, CALM], mk, d) && AtFloor([MINTED, CALM], mk, d) && mk.etherPrice == 1.0
    ensures FloorPrice(mk) > 0.0
    ensures FloorPool([MINTED, CALM], mk, d) < 1.0 ==>
      Stabilize([MINTED, CALM], mk, d, 0).troves == [PaidDown(CALM, FloorPool([MINTED, CALM], mk, d), 1.0), MINTED]
  {
    hide OnCurve, LiquidityAt, Demand, Cap;
    FloorPoolFits([MINTED, CALM], mk, d);
    var pool := FloorPool([MINTED, CALM], mk, d);
    TwoRowOrder(d.order, MINTED, CALM);
    assert CALM.supply == 1.0;
    if pool < 1.0 {
      RedeemFromFirst(d.order, pool, 1.0);
      assert [CALM, MINTED][1..] == [MINTED];
    }
  }

  // At any ready market with a positive floor there is such a redemption, here of one half, after
  // an adjusting phase in which the first owner moves debt.
  lemma SaferTroveRedeemedFirst(draws: nat -> real, ratio: real, mk: Market) returns (d: MarketDraws)
    requires draws(0) >= ratio && MarketReady(mk) && mk.rateRedemption < 1.0 && mk.etherPrice == 1.0
    ensures AllSound([DRIFTED, CALM]) && Adjust([DRIFTED, CALM], draws, ratio) == [MINTED, CALM]
    ensures TrueRatio(MINTED) < TrueRatio(CALM)
    ensures Admissible([MINTED, CALM], mk, d) && AtFloor([MINTED, CALM], mk, d)
    ensures Stabilize([MINTED, CALM], mk, d, 0).troves == [PaidDown(CALM, 0.5, 1.0), MINTED]
  {
    hide Admissible, AtFloor, Stabilize, PaidDown, FloorPool;
    ExampleTable(draws, ratio);
    var order := AscendingOrderExists([MINTED, CALM]);
    d := FloorWithPool([MINTED, CALM], mk, order, 0.5);
    SmallRedemption(mk, d);
  }
}
