// The simulation as a state machine on values: one step of the loop, runs of it, and what every
// run keeps. The two simulations of the source are copies of one loop that differ in how the
// fee rates are set; `Policy` says which is meant.

module Machine {
  import opened Arithmetic
  import opened Troves
  import opened Liquidation
  import opened Closing
  import opened Adjusting
  import opened Opening
  import opened Stabilizer

  datatype Policy = FixedRate | FeedbackRate

  const INITIAL_PRICE: real := 1.0
  const INITIAL_ETHER_PRICE: real := 1000.0
  const INITIAL_OPEN: nat := 10
  const INITIAL_RATE: real := 0.01
  const INITIAL_BASE_RATE: real := 0.0

  // One row of the record. The fixed-rate run has no base-rate column; its rows carry the rate.
  datatype Row = Row(
    priceYusd: real,
    priceEther: real,
    nOpen: nat,
    nClose: int,
    nLiquidate: nat,
    nRedempt: nat,
    nTroves: nat,
    stability: real,
    liquidity: real,
    redemptionPool: real,
    supplyYusd: real,
    issuanceFee: real,
    redemptionFee: real,
    liquidationGain: real,
    baseRate: real)

  // Everything one step takes from outside.
  datatype Draws = Draws(
    etherPrice: real,
    drops: seq<nat>,
    ratio: real,
    uniforms: nat -> real,
    openings: seq<Opening>,
    market: MarketDraws)

  datatype State = State(
    policy: Policy,
    troves: seq<Trove>,
    data: seq<Row>,
    rateIssuance: real,
    rateRedemption: real,
    etherPrice: real,
    running: bool)

  function Last(s: State): Row
    requires s.data != []
  {
    s.data[|s.data| - 1]
  }

  // ----- The phases before the market clears -----

  function Marked(ts: seq<Trove>, price: real): seq<Trove>
    requires AllSound(ts) && price > 0.0
  {
    Recompute(MarkPrice(ts, price))
  }

  datatype Phases = Phases(
    marked: seq<Trove>,
    surviving: seq<Trove>,
    remaining: seq<Trove>,
    adjusted: seq<Trove>,
    entering: seq<Trove>)
  {
    function Offered(): seq<Trove>
    {
      adjusted + entering
    }
  }

  ghost predicate Plays(ts: seq<Trove>, d: Draws)
  {
    && AllSound(ts) && d.etherPrice > 0.0 && AllPlausible(d.openings)
    && IsSample(d.drops, |Performing(Marked(ts, d.etherPrice))|)
  }

  function PhasesOf(ts: seq<Trove>, d: Draws): (ph: Phases)
    requires Plays(ts, d)
    ensures AllSound(ph.marked) && AllSound(ph.surviving) && AllSound(ph.remaining)
    ensures AllSound(ph.adjusted) && AllSound(ph.entering)
    ensures AllFresh(ph.remaining) && |ph.remaining| == |ph.adjusted|
    ensures AllSound(ph.Offered()) && AllBacked(ph.Offered(), d.etherPrice)
  {
    MarkedTable(ts, d.etherPrice);
    var marked := Marked(ts, d.etherPrice);
    LiquidationKeepsBacked(ts, d.etherPrice);
    var surviving := Performing(marked);
    CloseKeeps(surviving, d.drops, d.etherPrice);
    var remaining := Close(surviving, d.drops);
    AdjustKeeps(remaining, d.uniforms, d.ratio, d.etherPrice);
    var adjusted := Adjust(remaining, d.uniforms, d.ratio);
    OpenedKeep(d.openings, d.etherPrice);
    Phases(marked, surviving, remaining, adjusted, Opened(d.openings, d.etherPrice))
  }

  // Debt through the phases: out with the liquidated and the sampled rows, up and down with the
  // adjusted ones, in with the new ones.
  lemma PhaseLedger(ts: seq<Trove>, d: Draws)
    requires Plays(ts, d)
    ensures var ph := PhasesOf(ts, d);
      && TotalSupply(ph.Offered()) ==
           TotalSupply(ts) - TotalSupply(Failing(ph.marked)) - TotalSupply(Closed(ph.surviving, d.drops))
           + NetChange(ph.remaining, ph.adjusted) + TotalSupply(ph.entering)
      && |ph.Offered()| == |ts| - |Failing(ph.marked)| - |d.drops| + |d.openings|
  {
    var ph := PhasesOf(ts, d);
    MarkedTable(ts, d.etherPrice);
    LiquidationSplits(ph.marked);
    CloseDropsTheSample(ph.surviving, d.drops);
    NetChangeIsDifference(ph.remaining, ph.adjusted);
    TotalSupplyConcat(ph.adjusted, ph.entering);
  }

  // What the phases do, row by row: the rows not backed at the new price are liquidated, whoever
  // remains is adjusted with the row's own draw, and the new troves are as drawn.
  lemma PhasesDo(ts: seq<Trove>, d: Draws)
    requires Plays(ts, d)
    ensures var ph := PhasesOf(ts, d);
      && |Failing(ph.marked)| == |UnbackedIndices(ts, d.etherPrice)|
      && TotalSupply(Failing(ph.marked)) == TotalSupply(ts) - TotalSupply(ph.surviving)
      && TotalEther(Failing(ph.marked)) == TotalEther(ts) - TotalEther(ph.surviving)
      && AllSound(ph.remaining) && AdjustsEach(ph.remaining, ph.adjusted, d.uniforms, d.ratio)
      && AllAsDrawn(ph.entering, d.openings, d.etherPrice)
  {
    hide AdjustsEach, AllAsDrawn;
    var ph := PhasesOf(ts, d);
    MarkedTable(ts, d.etherPrice);
    LiquidationSplits(ph.marked);
    LiquidationCount(ts, d.etherPrice);
    AdjustIsEach(ph.remaining, d.uniforms, d.ratio);
    OpenedAsDrawn(d.openings, d.etherPrice);
  }

  // ----- Rates -----

  // The policy function: the base rate decays and rises with the share last redeemed.
  function FeedbackBaseRate(baseRate: real, redeemed: real, supply: real): real
    requires supply != 0.0
  {
    0.98 * baseRate + 0.5 * (redeemed / supply)
  }

  // The rise over 0.98 of the last rate is half the share of the supply that was redeemed, so the
  // rate rests where a twenty-fifth of the last rate was redeemed, rises above, and falls below.
  ghost predicate RateRule(last: real, redeemed: real, supply: real, next: real)
  {
    && 2.0 * (next - 0.98 * last) * supply == redeemed
    && (next == last <==> 25.0 * redeemed == last * supply)
    && (next > last <==> 25.0 * redeemed > last * supply)
  }

  lemma FeedbackFollowsRule(last: real, redeemed: real, supply: real)
    requires supply > 0.0
    ensures RateRule(last, redeemed, supply, FeedbackBaseRate(last, redeemed, supply))
  {
    var share, next := redeemed / supply, FeedbackBaseRate(last, redeemed, supply);
    Quotient(redeemed, supply);
    assert 2.0 * (next - 0.98 * last) == share;
    var rise := 25.0 * share - last;
    assert next - last == 0.02 * rise;
    DifferenceScaled(last, 25.0 * share, supply);
    Reassociate(25.0, share, supply);
    SignOfProduct(rise, supply);
  }

  function NextBaseRate(s: State): real
    requires s.data != [] && TotalSupply(s.troves) != 0.0
  {
    match s.policy
    case FixedRate => INITIAL_RATE
    case FeedbackRate => FeedbackBaseRate(Last(s).baseRate, Last(s).redemptionPool, TotalSupply(s.troves))
  }

  // ----- What every state keeps -----

  ghost predicate RowSound(r: Row)
  {
    && r.priceYusd > 0.0 && r.priceEther > 0.0 && r.liquidity > 0.0 && r.supplyYusd > 0.0
    && r.stability >= 0.0 && r.redemptionPool >= 0.0 && r.baseRate >= 0.0
    && r.supplyYusd == r.liquidity + r.stability - r.redemptionPool
  }

  ghost predicate InitialRow(policy: Policy, r: Row)
  {
    && RowSound(r) && r.priceYusd == INITIAL_PRICE && r.redemptionPool == 0.0
    && r.baseRate == (if policy.FixedRate? then INITIAL_RATE else INITIAL_BASE_RATE)
  }

  // The price corridor of one recorded step.
  ghost predicate InCorridor(r: Row)
  {
    && r.priceYusd <= 1.1 + r.baseRate
    && (r.priceYusd < 1.0 - r.baseRate ==> r.redemptionPool > 0.0)
    && (r.redemptionPool > 0.0 ==> r.priceYusd <= 1.0 - r.baseRate)
    && r.redemptionFee == Fee(r.baseRate, r.redemptionPool)
  }

  ghost predicate RateFollows(policy: Policy, prev: Row, r: Row)
  {
    match policy
    case FixedRate => r.baseRate == INITIAL_RATE
    case FeedbackRate =>
      && prev.supplyYusd != 0.0
      && r.baseRate == FeedbackBaseRate(prev.baseRate, prev.redemptionPool, prev.supplyYusd)
  }

  // The count columns balance from row to row exactly when the close count is not the -999 that
  // `close_troves` writes over it.
  ghost predicate CountsBalance(prev: Row, r: Row)
  {
    r.nTroves == prev.nTroves - r.nLiquidate - r.nClose + r.nOpen - r.nRedempt <==> r.nClose != -999
  }

  ghost predicate Follows(policy: Policy, prev: Row, r: Row)
  {
    RowSound(r) && InCorridor(r) && RateFollows(policy, prev, r) && CountsBalance(prev, r)
  }

  ghost predicate RecordSound(policy: Policy, data: seq<Row>)
  {
    && data != [] && InitialRow(policy, data[0])
    && (forall k :: 1 <= k < |data| ==> Follows(policy, data[k - 1], data[k]))
  }

  ghost predicate Inv(s: State)
  {
    && RecordSound(s.policy, s.data)
    && (s.policy.FixedRate? ==> s.rateIssuance == s.rateRedemption == INITIAL_RATE)
    && AllSound(s.troves) && s.etherPrice > 0.0 && AllBacked(s.troves, s.etherPrice)
    && (s.running ==>
      && s.etherPrice == Last(s).priceEther
      && TotalSupply(s.troves) == Last(s).supplyYusd
      && |s.troves| == Last(s).nTroves)
  }

  lemma LastRowSound(s: State)
    requires Inv(s)
    ensures RowSound(Last(s))
  {
    if |s.data| > 1 {
      assert Follows(s.policy, s.data[|s.data| - 2], s.data[|s.data| - 1]);
    }
  }

  lemma RateNonNegative(s: State)
    requires Inv(s) && s.running
    ensures TotalSupply(s.troves) > 0.0 && NextBaseRate(s) >= 0.0
  {
    LastRowSound(s);
    assert Last(s).redemptionPool / TotalSupply(s.troves) >= 0.0;
  }

  // ----- One step -----

  function MarketOf(s: State, d: Draws): Market
    requires s.data != [] && TotalSupply(s.troves) != 0.0
  {
    var base := NextBaseRate(s);
    Market(Last(s).priceYusd, Last(s).liquidity,
           if s.policy.FixedRate? then s.rateIssuance else base,
           if s.policy.FixedRate? then s.rateRedemption else base,
           d.etherPrice)
  }

  // The draws are in range for this state.
  ghost predicate Admits(s: State, d: Draws)
    requires Inv(s) && s.running
  {
    RateNonNegative(s);
    Plays(s.troves, d) && DrawsFit(PhasesOf(s.troves, d).Offered(), MarketOf(s, d), d.market)
  }

  lemma MarketIsReady(s: State, d: Draws)
    requires Inv(s) && s.running && Admits(s, d)
    ensures TotalSupply(s.troves) > 0.0
    ensures Admissible(PhasesOf(s.troves, d).Offered(), MarketOf(s, d), d.market)
  {
    LastRowSound(s);
    RateNonNegative(s);
  }

  function Cleared(s: State, d: Draws): (o: Outcome)
    requires Inv(s) && s.running && Admits(s, d)
    ensures o.liquidity >= 0.0 ==> o.price.Finite?
  {
    MarketIsReady(s, d);
    var offered, mk := PhasesOf(s.troves, d).Offered(), MarketOf(s, d);
    PriceCorridor(offered, mk, d.market, |d.openings|);
    PoolsStayPositive(offered, mk, d.market, |d.openings|);
    Stabilize(offered, mk, d.market, |d.openings|)
  }

  function IssuanceFees(ph: Phases, d: Draws, rate: real, stabilizer: real): real
    requires AllSound(ph.remaining)
  {
    AdjustFees(ph.remaining, d.uniforms, d.ratio, rate) + Fee(rate, TotalSupply(ph.entering)) + stabilizer
  }

  function RowOf(s: State, d: Draws): Row
    requires Inv(s) && s.running && Admits(s, d) && Cleared(s, d).liquidity >= 0.0
  {
    RateNonNegative(s);
    var ph, mk, o := PhasesOf(s.troves, d), MarketOf(s, d), Cleared(s, d);
    Row(o.price.value, d.etherPrice, o.nOpen, ReportedCloses(|ph.remaining|, |d.drops|),
        |Failing(ph.marked)|, o.nRedempt, |o.troves|, d.market.stability, o.liquidity, o.redemptionPool,
        TotalSupply(o.troves), o.price.value * IssuanceFees(ph, d, mk.rateIssuance, o.issuance), o.redemptionFee,
        LiquidationGain(Failing(ph.marked), d.etherPrice, Last(s).priceYusd), NextBaseRate(s))
  }

  // One pass of the loop. It breaks off before recording when the liquidity pool is negative, and
  // after recording when the price is.
  function Step(s: State, d: Draws): State
    requires Inv(s) && s.running && Admits(s, d)
  {
    RateNonNegative(s);
    var mk, o := MarketOf(s, d), Cleared(s, d);
    var moved := s.(troves := o.troves, rateIssuance := mk.rateIssuance, rateRedemption := mk.rateRedemption,
                    etherPrice := d.etherPrice);
    if o.liquidity < 0.0 then moved.(running := false)
    else moved.(data := s.data + [RowOf(s, d)], running := o.price.value >= 0.0)
  }
}
