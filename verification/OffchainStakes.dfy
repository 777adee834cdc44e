// The off-chain stake computation of the error-accumulation tests: rounds of liquidating one trove
// and letting a new one in, with the integer division of the contracts, against the same recurrence
// without truncation. The tests ask whether the truncation error is stable or grows.

module OffchainStakes {
  import opened Arithmetic

  // The stake of the trove liquidated in a round, and the collateral of the trove that enters.
  datatype Round = Round(liquidated: nat, coll: nat)

  datatype Totals = Totals(stakes: nat, coll: nat)

  function EntrantStake(coll: nat, stakes: nat, totalColl: nat): nat
    requires totalColl > 0
  {
    coll * stakes / totalColl
  }

  ghost predicate Fits(t: Totals, r: Round)
  {
    t.coll > 0 && r.liquidated <= t.stakes
  }

  function Next(t: Totals, r: Round): Totals
    requires Fits(t, r)
  {
    var left := t.stakes - r.liquidated;
    Totals(left + EntrantStake(r.coll, left, t.coll), t.coll + r.coll)
  }

  // The round without truncation.
  ghost function ExactNext(stakes: real, totalColl: nat, r: Round): real
    requires totalColl > 0
  {
    var left := stakes - r.liquidated as real;
    left + r.coll as real * left / totalColl as real
  }

  ghost predicate RoundsFit(t: Totals, rs: seq<Round>)
    decreases |rs|
  {
    t.coll > 0 && (rs == [] || (Fits(t, rs[0]) && RoundsFit(Next(t, rs[0]), rs[1..])))
  }

  ghost function Final(t: Totals, rs: seq<Round>): (f: Totals)
    requires RoundsFit(t, rs)
    ensures f.coll >= t.coll > 0
    decreases |rs|
  {
    if rs == [] then t else Final(Next(t, rs[0]), rs[1..])
  }

  ghost function LastStake(t: Totals, rs: seq<Round>, stake: nat): nat
    requires RoundsFit(t, rs)
    decreases |rs|
  {
    if rs == [] then stake
    else LastStake(Next(t, rs[0]), rs[1..], EntrantStake(rs[0].coll, t.stakes - rs[0].liquidated, t.coll))
  }

  ghost function ExactFinal(stakes: real, totalColl: nat, rs: seq<Round>): real
    requires totalColl > 0
    decreases |rs|
  {
    if rs == [] then stakes
    else ExactFinal(ExactNext(stakes, totalColl, rs[0]), totalColl + rs[0].coll, rs[1..])
  }

  // The sum over the rounds of 1 / C, where C is the total collateral after the round.
  ghost function InverseSum(totalColl: nat, rs: seq<Round>): real
    requires totalColl > 0
    decreases |rs|
  {
    if rs == [] then 0.0
    else 1.0 / (totalColl + rs[0].coll) as real + InverseSum(totalColl + rs[0].coll, rs[1..])
  }

  // What one round does to the totals: the liquidated stake leaves first, and the entrant's stake is
  // the integer part of its collateral times what is left, over the collateral before the round.
  ghost predicate RoundLaw(before: Totals, after: Totals, r: Round, stake: nat)
  {
    && after.coll == before.coll + r.coll
    && after.stakes + r.liquidated == before.stakes + stake
    && stake * before.coll <= r.coll * (before.stakes - r.liquidated) < (stake + 1) * before.coll
  }

  lemma RoundKeepsLaw(t: Totals, r: Round)
    requires Fits(t, r)
    ensures RoundLaw(t, Next(t, r), r, EntrantStake(r.coll, t.stakes - r.liquidated, t.coll))
  {
  }

  // The last round of a run keeps the law with the stake that the run reports. Every shorter run
  // fits as well, so the law holds of every round.
  lemma {:induction false} LastRound(t: Totals, rs: seq<Round>, stake: nat)
    requires rs != [] && RoundsFit(t, rs)
    ensures var n := |rs| - 1;
      RoundsFit(t, rs[..n]) && RoundLaw(Final(t, rs[..n]), Final(t, rs), rs[n], LastStake(t, rs, stake))
    decreases |rs|
  {
    hide RoundLaw, Next, EntrantStake;
    var next, first := Next(t, rs[0]), EntrantStake(rs[0].coll, t.stakes - rs[0].liquidated, t.coll);
    if |rs| == 1 {
      RoundKeepsLaw(t, rs[0]);
    } else {
      LastRound(next, rs[1..], first);
      var n := |rs| - 1;
      assert rs[..n][1..] == rs[1..][..n - 1];
    }
  }

  // The loop of the tests.
  method Simulate(totalStakes: nat, totalColl: nat, rounds: seq<Round>) returns (stakes: nat, coll: nat, stake: nat)
    requires RoundsFit(Totals(totalStakes, totalColl), rounds)
    ensures rounds == [] ==> stakes == totalStakes && coll == totalColl && stake == 0
    ensures rounds != [] ==> var n, start := |rounds| - 1, Totals(totalStakes, totalColl);
      RoundsFit(start, rounds[..n]) && RoundLaw(Final(start, rounds[..n]), Totals(stakes, coll), rounds[n], stake)
    ensures Totals(stakes, coll) == Final(Totals(totalStakes, totalColl), rounds)
    ensures stake == LastStake(Totals(totalStakes, totalColl), rounds, 0)
  {
    hide RoundLaw;
    if rounds != [] {
      LastRound(Totals(totalStakes, totalColl), rounds, 0);
    }
    stakes, coll, stake := totalStakes, totalColl, 0;
    for i := 0 to |rounds|
      invariant RoundsFit(Totals(stakes, coll), rounds[i..])
      invariant Final(Totals(stakes, coll), rounds[i..]) == Final(Totals(totalStakes, totalColl), rounds)
      invariant LastStake(Totals(stakes, coll), rounds[i..], stake)
        == LastStake(Totals(totalStakes, totalColl), rounds, 0)
    {
      assert rounds[i..][1..] == rounds[i + 1..];
      stakes := stakes - rounds[i].liquidated;
      stake := rounds[i].coll * stakes / coll;
      stakes := stakes + stake;
      coll := coll + rounds[i].coll;
    }
  }

  // ----- One round -----

  function Remainder(coll: nat, stakes: nat, totalColl: nat): nat
    requires totalColl > 0
  {
    coll * stakes % totalColl
  }

  // The error after a round, scaled by the collateral before it: the old error grows with the
  // collateral, and the division leaves its remainder behind.
  lemma ErrorAfterRound(t: Totals, exact: real, r: Round)
    requires Fits(t, r)
    ensures var error := exact - t.stakes as real;
      (ExactNext(exact, t.coll, r) - Next(t, r).stakes as real) * t.coll as real
        == error * (t.coll + r.coll) as real + Remainder(r.coll, t.stakes - r.liquidated, t.coll) as real
  {
    var left := t.stakes - r.liquidated;
    var error := exact - t.stakes as real;
    var c, total := r.coll as real, t.coll as real;
    var quotient, remainder := EntrantStake(r.coll, left, t.coll), Remainder(r.coll, left, t.coll);
    DivisionInReals(r.coll, left, t.coll);
    var share := c * (left as real + error) / total;
    assert exact - r.liquidated as real == left as real + error;
    assert share * total == c * (left as real + error);
    assert c * (left as real + error) == c * left as real + c * error;
    assert (error + share - quotient as real) * total == error * total + share * total - quotient as real * total;
  }

  lemma CastProduct(a: nat, b: nat)
    ensures (a * b) as real == a as real * b as real
  {
  }

  // The error never falls. It stays as it is exactly when the division leaves no remainder and
  // there is no earlier error for the new collateral to scale.
  lemma ErrorNeverFalls(t: Totals, exact: real, r: Round)
    requires Fits(t, r) && exact >= t.stakes as real
    ensures ExactNext(exact, t.coll, r) - Next(t, r).stakes as real >= exact - t.stakes as real
    ensures ExactNext(exact, t.coll, r) - Next(t, r).stakes as real == exact - t.stakes as real
      <==> r.coll * (t.stakes - r.liquidated) % t.coll == 0 && (r.coll == 0 || exact == t.stakes as real)
  {
    ErrorAfterRound(t, exact, r);
    var error := exact - t.stakes as real;
    var after := ExactNext(exact, t.coll, r) - Next(t, r).stakes as real;
    var remainder := Remainder(r.coll, t.stakes - r.liquidated, t.coll);
    GrowthOfScaled(error, after, t.coll as real, r.coll as real, remainder as real);
  }

  lemma GrowthOfScaled(error: real, after: real, total: real, added: real, remainder: real)
    requires total > 0.0 && error >= 0.0 && added >= 0.0 && remainder >= 0.0
    requires after * total == error * (total + added) + remainder
    ensures after >= error
    ensures after == error <==> remainder == 0.0 && (added == 0.0 || error == 0.0)
  {
    assert error * added >= 0.0;
    assert after * total == error * total + (error * added + remainder);
    Ordered(total, error, after, error * added + remainder);
    assert after == error ==> error * added + remainder == 0.0;
    assert error * added + remainder == 0.0 ==> (after - error) * total == 0.0;
  }

  // Relative to the collateral, one round adds at most 1 / C to the error.
  lemma RelativeErrorAfterRound(t: Totals, exact: real, r: Round)
    requires Fits(t, r)
    ensures var before := (exact - t.stakes as real) / t.coll as real;
      var after := (ExactNext(exact, t.coll, r) - Next(t, r).stakes as real) / Next(t, r).coll as real;
      before <= after < before + 1.0 / Next(t, r).coll as real
  {
    ErrorAfterRound(t, exact, r);
    var remainder := Remainder(r.coll, t.stakes - r.liquidated, t.coll);
    Rescale(exact - t.stakes as real, ExactNext(exact, t.coll, r) - Next(t, r).stakes as real,
            t.coll as real, (t.coll + r.coll) as real, remainder as real);
  }

  lemma Rescale(error: real, after: real, total: real, newTotal: real, remainder: real)
    requires 0.0 < total <= newTotal && 0.0 <= remainder < total
    requires after * total == error * newTotal + remainder
    ensures error / total <= after / newTotal < error / total + 1.0 / newTotal
  {
    FractionGap(error, total, after, newTotal, remainder);
    var less := after - 1.0;
    DifferenceScaled(1.0, after, total);
    FractionGap(less, newTotal, error, total, total - remainder);
    SumOfFractions(less, 1.0, newTotal);
  }

  // ----- Accumulated error -----

  // Over any run the error relative to the collateral never falls, and rises by at most the sum of
  // 1 / C over the rounds.
  lemma {:induction false} AccumulatedRelativeError(t: Totals, exact: real, rs: seq<Round>)
    requires RoundsFit(t, rs)
    ensures var before := (exact - t.stakes as real) / t.coll as real;
      var f := Final(t, rs);
      before <= (ExactFinal(exact, t.coll, rs) - f.stakes as real) / f.coll as real <= before + InverseSum(t.coll, rs)
    decreases |rs|
  {
    hide ExactNext;
    if rs == [] {
    } else {
      RelativeErrorAfterRound(t, exact, rs[0]);
      AccumulatedRelativeError(Next(t, rs[0]), ExactNext(exact, t.coll, rs[0]), rs[1..]);
    }
  }

  lemma {:induction false} InverseSumBound(totalColl: nat, rs: seq<Round>, least: nat)
    requires totalColl >= least > 0
    ensures InverseSum(totalColl, rs) <= |rs| as real / least as real
    decreases |rs|
  {
    var total := totalColl as real;
    if rs == [] {
    } else {
      InverseSumBound(totalColl + rs[0].coll, rs[1..], least);
      InversesFall(least as real, (totalColl + rs[0].coll) as real);
      assert |rs| as real / least as real == 1.0 / least as real + |rs[1..]| as real / least as real;
    }
  }

  lemma InversesFall(a: real, b: real)
    requires 0.0 < a <= b
    ensures 1.0 / b <= 1.0 / a
  {
    FractionGap(1.0, b, 1.0, a, b - a);
  }

  // The truncation bound, starting from equal totals: after n rounds the exact total exceeds the
  // integer one by at least 0 and at most C_n times the sum of 1 / C_k, hence C_n * n / C_0.
  lemma TruncationBound(t: Totals, rs: seq<Round>)
    requires RoundsFit(t, rs)
    ensures var f := Final(t, rs);
      var error := ExactFinal(t.stakes as real, t.coll, rs) - f.stakes as real;
      && 0.0 <= error <= f.coll as real * InverseSum(t.coll, rs)
      && error / f.coll as real <= |rs| as real / t.coll as real
  {
    hide ExactFinal, Final, InverseSum;
    AccumulatedRelativeError(t, t.stakes as real, rs);
    assert (t.stakes as real - t.stakes as real) / t.coll as real == 0.0;
    InverseSumBound(t.coll, rs, t.coll);
    var f := Final(t, rs);
    var error := ExactFinal(t.stakes as real, t.coll, rs) - f.stakes as real;
    Unscale(error, f.coll as real, InverseSum(t.coll, rs));
  }

  lemma Unscale(error: real, total: real, bound: real)
    requires total > 0.0 && 0.0 <= error / total <= bound
    ensures 0.0 <= error <= total * bound
  {
    assert error / total * total == error;
    assert (bound - error / total) * total >= 0.0;
  }

  // So is the error stable or does it grow? It can grow without bound: with one unit of collateral
  // entering per round and nothing liquidated, n rounds are n / 2 off.
  function UnitRounds(n: nat): seq<Round>
  {
    seq(n, i => Round(0, 1))
  }

  lemma UnitRound(totalColl: nat)
    requires totalColl >= 2
    ensures Fits(Totals(1, totalColl), Round(0, 1))
    ensures Next(Totals(1, totalColl), Round(0, 1)) == Totals(1, totalColl + 1)
  {
  }

  lemma {:induction false} UnitRoundsFinal(totalColl: nat, n: nat)
    requires totalColl >= 2
    ensures RoundsFit(Totals(1, totalColl), UnitRounds(n))
    ensures Final(Totals(1, totalColl), UnitRounds(n)) == Totals(1, totalColl + n)
    decreases n
  {
    hide Next;
    if n == 0 {
      assert UnitRounds(0) == [];
    } else {
      assert UnitRounds(n)[0] == Round(0, 1) && UnitRounds(n)[1..] == UnitRounds(n - 1);
      UnitRound(totalColl);
      UnitRoundsFinal(totalColl + 1, n - 1);
    }
  }

  // a / b == x / y, without the quotients.
  ghost predicate SameRatio(a: real, b: real, x: real, y: real)
  {
    a * y == x * b
  }

  lemma {:induction false} UnitRoundsExact(exact: real, totalColl: nat, n: nat)
    requires totalColl > 0
    ensures SameRatio(ExactFinal(exact, totalColl, UnitRounds(n)), (totalColl + n) as real, exact, totalColl as real)
    decreases n
  {
    if n == 0 {
      assert UnitRounds(0) == [];
    } else {
      hide SameRatio, ExactNext;
      var next := ExactNext(exact, totalColl, Round(0, 1));
      UnitRoundExact(exact, totalColl);
      assert UnitRounds(n)[1..] == UnitRounds(n - 1);
      UnitRoundsExact(next, totalColl + 1, n - 1);
      RatiosChain(ExactFinal(next, totalColl + 1, UnitRounds(n - 1)), (totalColl + n) as real,
                  next, (totalColl + 1) as real, exact, totalColl as real);
    }
  }

  lemma UnitRoundExact(exact: real, totalColl: nat)
    requires totalColl > 0
    ensures SameRatio(ExactNext(exact, totalColl, Round(0, 1)), (totalColl + 1) as real, exact, totalColl as real)
  {
    var c := totalColl as real;
    assert exact / c * c == exact;
    assert ExactNext(exact, totalColl, Round(0, 1)) == exact + exact / c;
  }

  lemma RatiosChain(a: real, x: real, b: real, y: real, c: real, z: real)
    requires y > 0.0 && SameRatio(a, x, b, y) && SameRatio(b, y, c, z)
    ensures SameRatio(a, x, c, z)
  {
    assert (a * z) * y == (a * y) * z == (b * x) * z == (b * z) * x == (c * y) * x == (c * x) * y;
    assert ((a * z) - (c * x)) * y == 0.0;
  }

  lemma ErrorIsUnbounded(t: Totals, n: nat)
    requires t == Totals(1, 2)
    ensures RoundsFit(t, UnitRounds(n))
    ensures ExactFinal(t.stakes as real, t.coll, UnitRounds(n)) - Final(t, UnitRounds(n)).stakes as real
      == n as real / 2.0
  {
    hide ExactFinal;
    UnitRoundsFinal(t.coll, n);
    UnitRoundsExact(t.stakes as real, t.coll, n);
  }

  // ----- Fairness -----

  // An entrant's share of the stakes is at most its share of the collateral, and short of it by
  // less than one unit of stake.
  lemma EntrantShare(coll: nat, stakes: nat, totalColl: nat)
    requires totalColl > 0
    ensures var stake := EntrantStake(coll, stakes, totalColl);
      stakes + stake > 0 ==>
        var fair := coll as real / (totalColl + coll) as real;
        var actual := stake as real / (stakes + stake) as real;
        actual <= fair < actual + 1.0 / (stakes + stake) as real
  {
    var stake := EntrantStake(coll, stakes, totalColl);
    DivisionInReals(coll, stakes, totalColl);
    if stakes + stake > 0 {
      SharesCompare(coll as real, totalColl as real, stake as real, stakes as real,
                    Remainder(coll, stakes, totalColl) as real);
    }
  }

  lemma DivisionInReals(coll: nat, stakes: nat, totalColl: nat)
    requires totalColl > 0
    ensures coll as real * stakes as real
      == EntrantStake(coll, stakes, totalColl) as real * totalColl as real + Remainder(coll, stakes, totalColl) as real
    ensures Remainder(coll, stakes, totalColl) < totalColl
  {
    var stake, remainder := EntrantStake(coll, stakes, totalColl), Remainder(coll, stakes, totalColl);
    assert coll * stakes == stake * totalColl + remainder;
    CastProduct(coll, stakes);
    CastProduct(stake, totalColl);
  }

  lemma SharesCompare(c: real, total: real, s: real, stakes: real, remainder: real)
    requires c >= 0.0 && total > 0.0 && s >= 0.0 && stakes >= 0.0 && s + stakes > 0.0
    requires 0.0 <= remainder < total && c * stakes == s * total + remainder
    ensures s / (stakes + s) <= c / (total + c) < s / (stakes + s) + 1.0 / (stakes + s)
  {
    var a, b, more := stakes + s, total + c, s + 1.0;
    CrossShares(c, total, s, stakes, remainder);
    FractionGap(s, a, c, b, remainder);
    FractionGap(c, b, more, a, b - remainder);
    SumOfFractions(s, 1.0, a);
  }

  lemma CrossShares(c: real, total: real, s: real, stakes: real, remainder: real)
    requires c * stakes == s * total + remainder
    ensures c * (stakes + s) == s * (total + c) + remainder
    ensures (s + 1.0) * (total + c) == c * (stakes + s) + (total + c - remainder)
  {
    Distribute(c, stakes, s);
    Distribute(s, total, c);
  }

  // The ratio of total stakes to total collateral never increases over a run.
  lemma {:induction false} StakesPerCollateralNeverRise(t: Totals, rs: seq<Round>)
    requires RoundsFit(t, rs)
    ensures Final(t, rs).stakes * t.coll <= t.stakes * Final(t, rs).coll
    decreases |rs|
  {
    if rs == [] {
    } else {
      var n, f := Next(t, rs[0]), Final(t, rs);
      RoundRatio(t, rs[0]);
      StakesPerCollateralNeverRise(n, rs[1..]);
      ChainRatios(f.stakes, f.coll, n.stakes, n.coll, t.stakes, t.coll);
    }
  }

  lemma RoundRatio(t: Totals, r: Round)
    requires Fits(t, r)
    ensures Next(t, r).stakes * t.coll <= t.stakes * Next(t, r).coll
  {
    var left := t.stakes - r.liquidated;
    var stake := EntrantStake(r.coll, left, t.coll);
    assert stake * t.coll <= r.coll * left;
    assert (left + stake) * t.coll <= left * t.coll + r.coll * left == left * (t.coll + r.coll);
    assert left * (t.coll + r.coll) <= t.stakes * (t.coll + r.coll);
  }

  lemma ChainRatios(a: nat, x: nat, b: nat, y: nat, c: nat, z: nat)
    requires y > 0 && a * y <= b * x && b * z <= c * y
    ensures a * z <= c * x
  {
    assert (a * y) * z <= (b * x) * z;
    assert (b * z) * x <= (c * y) * x;
    assert (a * z) * y <= (c * x) * y by {
      assert (a * z) * y == (a * y) * z && (b * x) * z == (b * z) * x && (c * y) * x == (c * x) * y;
    }
  }
}
