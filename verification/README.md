# Trove machine and stake simulation: a Dafny model

Two programs of the repository are modelled and verified.

**The macro-economic simulation** (`packages/contracts/macroModel/macro_model.py`). A table of troves is
moved through hourly steps: new ether price, liquidation, closing, adjusting, opening, and a price
stabilizer in which ceiling arbitrageurs mint and floor arbitrageurs redeem against a price curve of
elasticity -20. One row per step is recorded. The source holds two copies of the loop, one with fixed fee
rates and one in which a base rate feeds back from redemptions; `Policy` distinguishes them.

**The off-chain stake computation** (`packages/contracts/errorAccumulationTest/errorAccumulationTest.js`).
Rounds of liquidate-then-enter with integer division, compared with the same recurrence without
truncation. The file closes with the question whether the error is stable or grows; here is the answer:
it never shrinks, relative to the total collateral it stays under the sum of 1/C, and in absolute terms it
can grow without bound.

## Layout

| file | contents |
|---|---|
| `Arithmetic.dfy` | products, quotients and sums of reals |
| `PriceCurve.dfy` | powers of reals; the price curve and the liquidity that gives a target price |
| `Troves.dfy` | the table, its sums and selections of its rows |
| `Liquidation.dfy`, `Closing.dfy`, `Adjusting.dfy`, `Opening.dfy` | the four phases before the market clears |
| `Redemption.dfy` | riskiest-first redemption: order, count, residual, and the redemption loop |
| `Stabilizer.dfy` | `price_stabilizer` on values: both branches and what they guarantee |
| `Reachability.dfy` | draws that reach any price and any branch |
| `Machine.dfy` | the record, the state, the invariant, and one step of the loop |
| `RiskOrder.dfy` | exactly when redemption takes the truly riskiest troves first |
| `Runs.dfy` | ledgers of a step, theorems over all runs, the feedback bound |
| `Simulation.dfy` | the imperative simulation: a class whose methods are proved against `Machine` and `Runs` |
| `OffchainStakes.dfy` | the stake loop, its truncation error, and fairness of stakes |

## How the source is read

- Floats are `real`; rounding is not modelled. What floats do at the edges of the price curve is: a negative
  liquidity pool has no real twentieth root (`NotANumber`, all comparisons false, and the loop stops before
  recording), an empty one has an infinite price (`Infinite`, which is above any ceiling).
- Random draws are inputs. Their ranges are the preconditions `Plays` and `DrawsFit`: ether price, quantities,
  inattention and liquidity growth positive, opening ratios at least 1.1, sampled indices distinct and in
  range, the redemption ratio strictly between 0 and 1, the stability pool not negative. The draws of the
  adjusting phase are arbitrary. A running simulation always has such draws, for every branch of the
  stabilizer and every price (`Runs.StepIsPossible`, `Runs.CappedStepIsPossible`, `Runs.UncappedStepIsPossible`).
- The value of `x ** (1 / delta)` enters as a witness `p > 0` with `p^20 * liquidity == previous^20 * demand`
  (`PriceCurve.OnCurve`). The source evaluates the curve twice in a capped redemption; both witnesses are
  inputs and are proved equal.
- `sort_values` breaks ties arbitrarily, so its result is an input too: any ascending order of the table.
- `CR_current` is not refreshed by the adjusting phase, and the recorded liquidity pool is not reduced by a
  redemption (the two assignments are commented out in the source). Both are kept. So redemption need not take
  the truly riskiest troves first, and the recorded point need not lie on the price curve; exactly when they do
  is stated in `RiskOrder.TrulyFirstIffRanked` and `Stabilizer.EndsOnCurve`.
- The fixed-rate run has no base-rate column; its rows carry the fixed rate.

Inductive lemmas are marked `{:induction false}` and write their induction out. So are the few others over runs
and sequences where automatic induction gets in the way.

## Model

| member | source | states |
|---|---|---|
| `PriceCurve.TargetIsInverse` | packages/contracts/macroModel/macro_model.py:273-307 | The target supply and the pricing curve undo each other: the liquidity computed for a target price is positive and is the only one whose curve price is that target |
| `PriceCurve.HalvedPrice` | packages/contracts/macroModel/macro_model.py:68-307 | The elasticity in numbers: to halve the price, the pool must be 1,048,576 (2^20) times the demand |
| `PriceCurve.MoreLiquidityHalves` | packages/contracts/macroModel/macro_model.py:68-273 | 2^20 times the liquidity at the same demand halves the curve price, whatever the previous price |
| `Stabilizer.PriceMoves` | packages/contracts/macroModel/macro_model.py:264-273 | The curve price is the previous price divided by c exactly if supply less stability is c^20 times the previous pool times the drawn growth |
| `Stabilizer.PriceRests` | packages/contracts/macroModel/macro_model.py:264-273 | The curve price is the previous one exactly if supply less stability equals the previous pool times the drawn growth |
| `PriceCurve.CurveFalls` | packages/contracts/macroModel/macro_model.py:273 | The curve is strictly decreasing and assigns one price to each liquidity |
| `PriceCurve.PriceAgainstTarget` | packages/contracts/macroModel/macro_model.py:273-308 | A curve price is above (below) a target exactly when liquidity is below (above) the target liquidity, so both branches have a positive gap to close |
| `Liquidation.LiquidationSplits` | packages/contracts/macroModel/macro_model.py:131-136 | Liquidation partitions rows, debt and collateral at recorded ratio 1.1, losing and duplicating nothing |
| `Liquidation.LiquidationKeepsBacked` | packages/contracts/macroModel/macro_model.py:126-132 | Survivors are worth at least 1.1 times their debt at the new price; no liquidated trove is |
| `Liquidation.LiquidationCount` | packages/contracts/macroModel/macro_model.py:126-135 | As many troves are liquidated as have collateral worth less than 1.1 times their debt at the new price |
| `Liquidation.LiquidationGainIsBounded` | packages/contracts/macroModel/macro_model.py:133-138 | The liquidation gain is at most (1.1 - previous price) times the liquidated debt, and below it unless that debt is zero |
| `Closing.CloseDropsTheSample` | packages/contracts/macroModel/macro_model.py:170-172 | As many rows go as were sampled, exactly the unsampled rows stay, and debt falls by that of the sampled rows |
| `Closing.CloseKeepsOrder` | packages/contracts/macroModel/macro_model.py:170-172 | After the index reset an unsampled row has moved up by the number of sampled rows above it |
| `Adjusting.BandBounds` | packages/contracts/macroModel/macro_model.py:188-202 | The two comparisons of the check with -1 and 2 are comparisons of the recorded ratio with chosen * (1 - inattention) and chosen * (1 + 2 * inattention) |
| `Adjusting.AdjustRowEffect` | packages/contracts/macroModel/macro_model.py:184-202 | A recorded ratio between chosen * (1 - inattention) and chosen * (1 + 2 * inattention) leaves the row as it is; outside these bounds the true ratio becomes the chosen one, moving only debt or only collateral as the draw decides |
| `Adjusting.AdjustRestoresBand` | packages/contracts/macroModel/macro_model.py:184-202 | After adjusting, with ratios recomputed at the same price, every trove is in its band |
| `Adjusting.AdjustIdempotent` | packages/contracts/macroModel/macro_model.py:184-202 | Adjusting again with any draws changes nothing and charges nothing, on recomputed and on stale ratios |
| `Adjusting.AdjustFeesAreMint` | packages/contracts/macroModel/macro_model.py:195-197 | The fee accumulated by the loop is the rate times the sum of the positive per-row increases in debt |
| `Adjusting.AdjustLeavesStale` | packages/contracts/macroModel/macro_model.py:188-202 | A row's recorded ratio is still true after adjusting exactly if the row was in its band |
| `Opening.OpenTroveKeeps` | packages/contracts/macroModel/macro_model.py:224-240 | A new trove holds the drawn collateral at the current ether price, has the drawn inattention and ratio, and owes price * collateral / ratio; it is backed, and its chosen and recorded ratios are its true ratio |
| `Opening.OpenedAsDrawn` | packages/contracts/macroModel/macro_model.py:221-240 | The new troves are the draws, one for one and in order, and bring in the sum of the drawn collateral |
| `Redemption.NumberRedeemed` | packages/contracts/macroModel/macro_model.py:320-326 | The troves closed fit in the pool and one more would not; one is always left at the head |
| `Redemption.RedeemedPrefixIsMaximal` | packages/contracts/macroModel/macro_model.py:320-326 | A prefix of the sorted table fits in the pool exactly if it is no longer than the count |
| `Redemption.RedeemExact` | packages/contracts/macroModel/macro_model.py:318-334 | Total debt falls by exactly the redemption pool, and as many rows go as are counted |
| `Redemption.Residual` | packages/contracts/macroModel/macro_model.py:329-334 | The residual is at least 0 and below the head trove's debt, so its new ratio is defined |
| `Redemption.PayingDownHelpsTheCovered` | packages/contracts/macroModel/macro_model.py:332-334 | The payment takes its own amount of debt and collateral of equal value, refreshes the recorded ratio to the true one and touches nothing else; a positive one does not lower the ratio exactly when collateral covers debt; a covered trove keeps positive collateral |
| `Redemption.PaidDownKeeps` | packages/contracts/macroModel/macro_model.py:332-334 | A backed trove that is paid down stays backed and its ratio does not fall |
| `Redemption.RiskiestFirst` | packages/contracts/macroModel/macro_model.py:319-331 | The table splits into touched and untouched troves, and no touched one has a higher recorded ratio than an untouched one |
| `Redemption.RedeemRiskiest` | packages/contracts/macroModel/macro_model.py:318-334 | The loop terminates, never reads an empty table, and computes the maximal count and the redeemed table |
| `RiskOrder.TrulyFirstIffRanked` | packages/contracts/macroModel/macro_model.py:318-334 | For any table and any ready market with a positive floor: every admissible redemption touches troves of the lowest true ratios first if and only if the recorded column ranks all troves as their true ratios do |
| `RiskOrder.StepIsTrulyFirstIff` | packages/contracts/macroModel/macro_model.py:180-334 | The same condition before the adjusting phase and free of its draws: owners in the band count with their recorded ratio, the others with their chosen one, entering troves with their opening ratio |
| `RiskOrder.SortColumnIsTrue` | packages/contracts/macroModel/macro_model.py:180-319 | The sorted column itself is true for the whole table, entering troves included, exactly when every remaining owner is in the band |
| `RiskOrder.SaferTroveRedeemedFirst` | packages/contracts/macroModel/macro_model.py:184-334 | A concrete failure at any ready market with ether price 1 and a positive floor: admissible draws whose floor branch pays down a trove at ratio 3 and leaves one at ratio 2 untouched |
| `RiskOrder.SmallRedemption` | packages/contracts/macroModel/macro_model.py:318-334 | On that table every admissible redemption of less than one unit does so |
| `Reachability.EveryPriceIsReachable` | packages/contracts/macroModel/macro_model.py:268-277 | Any positive price is the curve price of admissible draws, for any ready market and any table with debt |
| `Reachability.CappedBelowFloor` | packages/contracts/macroModel/macro_model.py:307-314 | At the fraction q of the floor price the cap binds exactly if the drawn ratio is at most 1 - q^20 |
| `Stabilizer.FloorPoolFits` | packages/contracts/macroModel/macro_model.py:301-315 | Below the floor the gap is positive and the pool redeemed is the smaller of gap and cap, positive and below total debt: what makes the unchecked loop safe |
| `Stabilizer.CeilingGapPositive` | packages/contracts/macroModel/macro_model.py:281-284 | At the ceiling the supply minted is positive, also when the liquidity pool is empty |
| `Stabilizer.RootsAgree` | packages/contracts/macroModel/macro_model.py:273-316 | The second evaluation of the curve gives the first one's price |
| `Stabilizer.PriceCorridor` | packages/contracts/macroModel/macro_model.py:273-316 | The price is positive and at most the ceiling; it is below the floor exactly in a capped redemption, and is then the curve price, with exactly ratio times liquidity redeemed |
| `Stabilizer.OneBranch` | packages/contracts/macroModel/macro_model.py:281-316 | At most one arbitrage happens in a step, each exactly under its guard, and each ends at or below its bound |
| `Stabilizer.EndsOnCurve` | packages/contracts/macroModel/macro_model.py:294-316 | With the redeemed supply taken off the pool the step ends on its curve exactly if redemption was not capped; with the pool as recorded, exactly if no redemption reached the floor |
| `Stabilizer.PoolIdentity` | packages/contracts/macroModel/macro_model.py:277-340 | Supply is liquidity plus stability less redemption in all four branches; supply and trove counts move by what is minted and redeemed |
| `Stabilizer.RedeemedShare` | packages/contracts/macroModel/macro_model.py:308-334 | The pool redeemed is at most ratio/(1-ratio) of the supply that remains |
| `Stabilizer.StabilizeKeeps` | packages/contracts/macroModel/macro_model.py:286-334 | Neither the ceiling trove nor a redemption leaves a trove below 1.1 or without debt or collateral |
| `Stabilizer.CeilingTroveKeeps` | packages/contracts/macroModel/macro_model.py:286-292 | The trove minted at the ceiling has the minted supply, inattention 0.1, and 1.1 for its true, chosen and recorded ratio |
| `Stabilizer.ArbitrageTable` | packages/contracts/macroModel/macro_model.py:281-335 | At the ceiling exactly that trove joins the table, at the floor the sorted table is redeemed, and otherwise the table stays; troves are counted as redeemed only at the floor |
| `Stabilizer.NoRedemptionAtFullRate` | packages/contracts/macroModel/macro_model.py:301 | At a redemption rate of 1 or more nothing is redeemed |
| `Machine.PhaseLedger` | packages/contracts/macroModel/macro_model.py:391-416 | Debt and trove count through liquidation, closing, adjusting and opening |
| `Machine.PhasesDo` | packages/contracts/macroModel/macro_model.py:125-240 | As many rows are liquidated as are not backed at the new price, with the debt and collateral that leave; each remaining row is adjusted by its own draw, the new troves are as drawn |
| `Machine.RateNonNegative` | packages/contracts/macroModel/macro_model.py:670-673 | In every reachable state the rate rule divides by a positive supply and gives a rate of at least 0 |
| `Machine.FeedbackFollowsRule` | packages/contracts/macroModel/macro_model.py:671 | The rate rises over 0.98 of the last one by half the share of supply redeemed; it rests exactly where 25 times the pool redeemed is the last rate times the supply, rises above that and falls below |
| `Runs.StepKeepsInv` | packages/contracts/macroModel/macro_model.py:383-456 | One step keeps solvency of the table and soundness of the whole record, under either policy |
| `Runs.CountLedger` | packages/contracts/macroModel/macro_model.py:340-448 | The trove count ledger of a step; the recorded count columns balance exactly if the close count is not -999, which is reported exactly if fewer rows remain than were dropped |
| `Runs.SupplyLedger` | packages/contracts/macroModel/macro_model.py:383-443 | Closing supply is opening supply less liquidated, closed and redeemed debt, plus adjustment, opened and minted debt |
| `Runs.IssuanceFeeIsGrossMinting` | packages/contracts/macroModel/macro_model.py:441 | The recorded fee is price times rate times all supply minted in the step, none of the three parts negative |
| `Runs.BelowFloorMeansCapped` | packages/contracts/macroModel/macro_model.py:301-316 | A recorded price below the floor comes with a capped redemption and is the curve price of the recorded pool |
| `Runs.RowRecords` | packages/contracts/macroModel/macro_model.py:133-448 | The count and gain columns: troves liquidated are those not backed at the new price; the gain is the ether that left at its price less the debt that left at the previous price; troves redeemed are those the redeemed pool covers from the front of the sorted table; count and supply are the closing table's |
| `Runs.StepStops` | packages/contracts/macroModel/macro_model.py:431-456 | The loop stops exactly if the supply offered is below the stability pool, then leaves the record alone; otherwise it adds one row |
| `Runs.StepIsPossible` | packages/contracts/macroModel/macro_model.py:268-298 | From every running state any price at or above the floor can be the curve price: recorded as it is within the corridor, with a mint at the ceiling price above it |
| `Runs.CappedStepIsPossible` | packages/contracts/macroModel/macro_model.py:301-334 | From every running state with a positive floor any positive price below it can be recorded, by a capped redemption |
| `Runs.UncappedStepIsPossible` | packages/contracts/macroModel/macro_model.py:301-334 | ... and the floor price itself, by an uncapped redemption |
| `Runs.RunIsExplained` | packages/contracts/macroModel/macro_model.py:268-448 | Every row a run adds: ether price and stability pool are the step's; the price is the curve price, against the row before, of the recorded pool less the redeemed supply, which stays in only below the floor; a price below the floor means the drawn fraction of the recorded pool was redeemed; a minted trove means the ceiling price and no redemption; troves are counted as redeemed only if something was |
| `Runs.RunKeepsInv` | packages/contracts/macroModel/macro_model.py:383-456 | Every run keeps the invariant and only appends to the record, one row per completed step |
| `Runs.RunLedger` | packages/contracts/macroModel/macro_model.py:383-456 | Conservation of the stablecoin over a whole run |
| `Runs.EveryRun` | packages/contracts/macroModel/macro_model.py:366-456 | From the initial ten troves, under either policy: every trove is sound and worth 1.1 times its debt at the current ether price; every row, row 0 included, satisfies the pool identity and the upper price bound; every later row is explained by its draws, which gives the lower bound and at most one arbitrage, and obeys the rate rule of its policy |
| `Runs.FeedbackBound` | packages/contracts/macroModel/macro_model.py:662-740 | From any bounded record, if no redemption ratio exceeds rho, every base rate stays in [0, 0.98 + 0.5 rho/(1-rho)] |
| `Runs.FeedbackBoundFromStart` | packages/contracts/macroModel/macro_model.py:646-740 | The same for every run from the initial state |
| `Runs.StartsAsDrawn` | packages/contracts/macroModel/macro_model.py:366-380 | Ten troves as drawn at ether price 1000, row 0 at price 1 with equal pools that hold the whole supply, 1% of it charged, both rates 1%, base rate 0 in the feedback run |
| `Simulation.Simulation.constructor` | packages/contracts/macroModel/macro_model.py:366-380 | The loop of openings builds ten troves as drawn at ether price 1000; row 0 records them at price 1 with equal pools and 1% of the supply charged |
| `Simulation.Simulation.LiquidateTroves` | packages/contracts/macroModel/macro_model.py:125-151 | Survivors are sound, backed and recorded at their true ratios; every backed trove survives; debt, collateral and rows split between survivors and liquidated, as many as are not backed; the gain is the collateral's value less the debt's, and below (1.1 - previous price) times the debt |
| `Simulation.Simulation.CloseTroves` | packages/contracts/macroModel/macro_model.py:155-176 | Exactly the unsampled rows stay, debt falls by that of the sampled ones, and -999 is reported exactly when more than half of the rows were sampled |
| `Simulation.Simulation.AdjustTroves` | packages/contracts/macroModel/macro_model.py:180-203 | Each row within chosen * (1 - inattention) and chosen * (1 + 2 * inattention) stays, each other one is restored to its chosen ratio by its own draw; the fee, on true ratios as `MoveTroves` calls it, is the rate times the sum of the rises in debt |
| `Simulation.Simulation.OpenTroves` | packages/contracts/macroModel/macro_model.py:207-242 | The table keeps its rows and gains the drawn troves, one for one and in order; collateral grows by the sum of the drawn quantities; the fee is the rate times the growth in debt |
| `Simulation.Simulation.SetRates` | packages/contracts/macroModel/macro_model.py:670-673 | One non-negative rate for both fees: over 0.98 of the last one it rises by half the share of supply redeemed, so it equals that exactly when nothing was redeemed, rests exactly where 25 times the pool is the last rate times the supply, and is above it by at most half of rho/(1-rho) when the share redeemed is within rho; no change under the fixed policy |
| `Simulation.Simulation.PriceStabilizer` | packages/contracts/macroModel/macro_model.py:261-341 | The two sequential arbitrage branches compute the value-level outcome, table included |
| `Simulation.Simulation.Advance` | packages/contracts/macroModel/macro_model.py:383-456 | One pass of the loop is one step of the state machine |
| `Simulation.Simulation.Simulate` | packages/contracts/macroModel/macro_model.py:383-456 | The loop with its breaks computes the run and keeps the invariant |
| `OffchainStakes.Simulate` | packages/contracts/errorAccumulationTest/errorAccumulationTest.js:1149-1172 | The loop computes the totals and the last stake of the recurrence, and its last round keeps the law of a round: the liquidated stake leaves first, the entrant's stake is its collateral times what is left over the collateral before, rounded down |
| `OffchainStakes.LastRound` | packages/contracts/errorAccumulationTest/errorAccumulationTest.js:1165-1172 | A run without its last round fits, and the step from it to the whole run keeps that law with the stake the run reports |
| `OffchainStakes.ErrorAfterRound` | packages/contracts/errorAccumulationTest/errorAccumulationTest.js:1165-1172 | The two contributions to the error: the old one scales with the collateral, the division leaves its remainder |
| `OffchainStakes.ErrorNeverFalls` | packages/contracts/errorAccumulationTest/errorAccumulationTest.js:1580-1589 | The error never shrinks, and is stable exactly if the division is exact and there is no earlier error for new collateral to scale |
| `OffchainStakes.AccumulatedRelativeError` | packages/contracts/errorAccumulationTest/errorAccumulationTest.js:1307-1323 | Over any run the error per unit of collateral never falls and rises by at most the sum of 1/C_k |
| `OffchainStakes.TruncationBound` | packages/contracts/errorAccumulationTest/errorAccumulationTest.js:1149-1172 | From equal totals the exact total exceeds the integer one by 0 up to C_n times the sum of 1/C_k; per unit of collateral by at most n/C_0 |
| `OffchainStakes.ErrorIsUnbounded` | packages/contracts/errorAccumulationTest/errorAccumulationTest.js:1580-1589 | The error can grow without bound: a family of runs whose error after n rounds is n/2 |
| `OffchainStakes.EntrantShare` | packages/contracts/errorAccumulationTest/errorAccumulationTest.js:1236-1247 | An entrant's share of the stakes is at most its share of the collateral, short by less than one unit of stake |
| `OffchainStakes.StakesPerCollateralNeverRise` | packages/contracts/errorAccumulationTest/errorAccumulationTest.js:1307-1323 | Total stakes per total collateral never increase over a run |

## Left out

- The drawn numbers of troves to close and to open (rounded shocks plus price sensitivity) are taken as given by the draws: only their use is modelled.
- Seeds and distributions of all draws, and floating-point rounding.
- The stability pool's own update (a fractional power of its return), the return and the airdrop of the stability pool, and the YETI market: they do not feed back into the modelled state except through the stability pool, which is an input.
- Existence of twentieth roots: the price is a witness of the curve equation, as described above.
- An error path for `random.sample` asked for more rows than there are, which ends the original program: samples are drawn from the rows there are.
- Stakes to liquidate in the off-chain computation are on-chain reads; they are inputs no greater than the running total. The comparison with the contract's own stake is not part of this model, nor are the contracts.
- Plots, histograms and the remaining test drivers.
