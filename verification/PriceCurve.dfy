// The stablecoin price curve of the macro model: a constant-elasticity demand curve with
// elasticity `delta = -20`, and the supply that sends the price to a chosen target.

// Integer powers of reals.
module RealPower {
  import opened Arithmetic

  function Pow(x: real, n: nat): real
  {
    if n == 0 then 1.0 else x * Pow(x, n - 1)
  }

  lemma {:induction false} PowPositive(x: real, n: nat)
    requires x > 0.0
    ensures Pow(x, n) > 0.0
  {
    if n == 0 {
    } else {
      PowPositive(x, n - 1);
    }
  }

  lemma {:induction false} PowStrictlyIncreases(x: real, y: real, n: nat)
    requires 0.0 < x < y
    requires n > 0
    ensures Pow(x, n) < Pow(y, n)
  {
    PowPositive(x, n - 1);
    PowPositive(y, n - 1);
    if n == 1 {
    } else {
      PowStrictlyIncreases(x, y, n - 1);
      ProductsIncrease(x, y, Pow(x, n - 1), Pow(y, n - 1));
    }
  }

  // Powers of positive reals are ordered exactly as their bases.
  lemma PowOrder(x: real, y: real, n: nat)
    requires x > 0.0 && y > 0.0 && n > 0
    ensures Pow(x, n) < Pow(y, n) <==> x < y
    ensures Pow(x, n) == Pow(y, n) <==> x == y
  {
    if x < y {
      PowStrictlyIncreases(x, y, n);
    } else if y < x {
      PowStrictlyIncreases(y, x, n);
    }
  }

  lemma {:induction false} PowProduct(z: real, x: real, y: real, n: nat)
    requires z == x * y
    ensures Pow(z, n) == Pow(x, n) * Pow(y, n)
  {
    if n == 0 {
    } else {
      PowProduct(z, x, y, n - 1);
      Regroup(x, y, Pow(x, n - 1), Pow(y, n - 1));
      assert Pow(z, n) == (x * y) * (Pow(x, n - 1) * Pow(y, n - 1));
    }
  }

  lemma {:induction false} PowOfOne(n: nat)
    ensures Pow(1.0, n) == 1.0
  {
    if n == 0 {
    } else {
      PowOfOne(n - 1);
    }
  }

  lemma {:induction false} PowOfSquare(x: real, square: real, n: nat)
    requires square == x * x
    ensures Pow(x, 2 * n) == Pow(square, n)
  {
    if n == 0 {
    } else {
      PowOfSquare(x, square, n - 1);
      Reassociate(Pow(square, n - 1), x, x);
      assert Pow(x, 2 * n) == x * (x * Pow(x, 2 * (n - 1)));
    }
  }

  lemma TwentyDoublings()
    ensures Pow(2.0, 20) == 1048576.0
  {
    PowOfSquare(2.0, 4.0, 10);
    PowOfSquare(4.0, 16.0, 5);
    assert Pow(16.0, 2) == 256.0 && Pow(16.0, 4) == 65536.0;
  }

  lemma PowQuotient(x: real, y: real, n: nat)
    requires y > 0.0
    ensures Pow(x / y, n) * Pow(y, n) == Pow(x, n)
  {
    PowProduct(x, x / y, y, n);
  }

  lemma ProductsIncrease(a: real, b: real, c: real, d: real)
    requires 0.0 < a < b && 0.0 < c < d
    ensures a * c < b * d
  {
    assert a * c < b * c;
    assert b * c < b * d;
  }
}

module PriceCurve {
  import opened Arithmetic
  import opened RealPower

  // The source writes `delta = -20`; prices move with the power 1/delta of the liquidity.
  const ELASTICITY: nat := 20

  // `price` is the value of `previous * (liquidity / demand) ** (1 / delta)`, written without
  // the twentieth root. `demand` stands for the previous liquidity pool times
  // `drift_liquidity + shock_liquidity`.
  ghost predicate OnCurve(price: real, liquidity: real, previous: real, demand: real)
  {
    price > 0.0 && Pow(price, ELASTICITY) * liquidity == Pow(previous, ELASTICITY) * demand
  }

  // `demand * (price / previous) ** delta`: the liquidity at which the source expects `price`.
  function LiquidityAt(price: real, previous: real, demand: real): real
    requires price > 0.0
  {
    demand * Pow(previous / price, ELASTICITY)
  }

  // Every curve point has positive liquidity.
  lemma CurveLiquidityPositive(price: real, liquidity: real, previous: real, demand: real)
    requires previous > 0.0 && demand > 0.0
    requires OnCurve(price, liquidity, previous, demand)
    ensures liquidity > 0.0
  {
    PowPositive(price, ELASTICITY);
    PowPositive(previous, ELASTICITY);
    assert Pow(previous, ELASTICITY) * demand > 0.0;
    FactorOrder(Pow(price, ELASTICITY), 0.0, liquidity);
  }

  // Pricing and target supply undo each other: the target liquidity is positive, and it is the
  // only liquidity whose curve price is the target price.
  lemma TargetIsInverse(price: real, liquidity: real, previous: real, demand: real)
    requires price > 0.0 && previous > 0.0 && demand > 0.0
    ensures LiquidityAt(price, previous, demand) > 0.0
    ensures OnCurve(price, liquidity, previous, demand) <==> liquidity == LiquidityAt(price, previous, demand)
  {
    var target := LiquidityAt(price, previous, demand);
    var a, q, b := Pow(price, ELASTICITY), Pow(previous / price, ELASTICITY), Pow(previous, ELASTICITY);
    PowPositive(price, ELASTICITY);
    PowPositive(previous / price, ELASTICITY);
    PowQuotient(previous, price, ELASTICITY);
    assert a * target == b * demand by {
      assert a * (demand * q) == (q * a) * demand;
    }
    FactorOrder(a, liquidity, target);
    FactorOrder(a, target, liquidity);
  }

  // How steep the curve is: a price falls by the factor c, against the previous one, exactly when the
  // liquidity is c^20 times the demand.
  lemma CurveScales(price: real, liquidity: real, previous: real, demand: real, c: real)
    requires previous > 0.0 && demand > 0.0 && c > 0.0
    requires OnCurve(price, liquidity, previous, demand)
    ensures price * c == previous <==> liquidity == Pow(c, 20) * demand
  {
    var a := Pow(price, ELASTICITY);
    PowPositive(price, ELASTICITY);
    PowPositive(previous, ELASTICITY);
    SignOfProduct(price, c);
    PowProduct(price * c, price, c, ELASTICITY);
    PowOrder(price * c, previous, ELASTICITY);
    PowsAgree(a, Pow(c, ELASTICITY), Pow(previous, ELASTICITY), liquidity, demand);
  }

  lemma PowsAgree(now: real, factor: real, before: real, liquidity: real, demand: real)
    requires now > 0.0 && demand > 0.0 && now * liquidity == before * demand
    ensures now * factor == before <==> liquidity == factor * demand
  {
    ProductOfThree(now, factor, demand, now * factor);
    FactorOrder(now, liquidity, factor * demand);
    FactorOrder(now, factor * demand, liquidity);
    FactorOrder(demand, now * factor, before);
    FactorOrder(demand, before, now * factor);
  }

  // In numbers: at half the previous price, 2^20 times the demand is in the pool.
  lemma HalvedPrice(price: real, liquidity: real, demand: real)
    requires price > 0.0
    ensures LiquidityAt(price, 2.0 * price, demand) == 1048576.0 * demand
    ensures demand > 0.0 ==> (OnCurve(price, liquidity, 2.0 * price, demand) <==> liquidity == 1048576.0 * demand)
  {
    assert 2.0 * price / price == 2.0;
    TwentyDoublings();
    if demand > 0.0 {
      TargetIsInverse(price, liquidity, 2.0 * price, demand);
    }
  }

  // ... and whatever the previous price, 2^20 times the liquidity halves the curve price.
  lemma MoreLiquidityHalves(price: real, liquidity: real, previous: real, demand: real)
    ensures OnCurve(price, liquidity, previous, demand) <==>
      OnCurve(price / 2.0, 1048576.0 * liquidity, previous, demand)
  {
    var half := price / 2.0;
    TwentyDoublings();
    PowProduct(price, half, 2.0, ELASTICITY);
    Reassociate(Pow(half, ELASTICITY), 1048576.0, liquidity);
  }

  // The curve falls: of two points on it, the one with more liquidity has the lower price.
  lemma CurveFalls(p1: real, liq1: real, p2: real, liq2: real, previous: real, demand: real)
    requires previous > 0.0 && demand > 0.0
    requires OnCurve(p1, liq1, previous, demand)
    requires OnCurve(p2, liq2, previous, demand)
    ensures p1 < p2 <==> liq2 < liq1
    ensures p1 == p2 <==> liq1 == liq2
  {
    CurveLiquidityPositive(p1, liq1, previous, demand);
    CurveLiquidityPositive(p2, liq2, previous, demand);
    PowPositive(p1, ELASTICITY);
    PowPositive(p2, ELASTICITY);
    PowOrder(p1, p2, ELASTICITY);
    EqualProductsOppose(Pow(p1, ELASTICITY), liq1, Pow(p2, ELASTICITY), liq2);
  }

  // A curve price is above (below) a target price exactly when the liquidity is below (above)
  // the target liquidity. This is what makes both arbitrage branches move supply the right way.
  lemma PriceAgainstTarget(price: real, liquidity: real, target: real, previous: real, demand: real)
    requires previous > 0.0 && demand > 0.0 && target > 0.0
    requires OnCurve(price, liquidity, previous, demand)
    ensures price > target <==> liquidity < LiquidityAt(target, previous, demand)
    ensures price < target <==> liquidity > LiquidityAt(target, previous, demand)
  {
    var wanted := LiquidityAt(target, previous, demand);
    TargetIsInverse(target, wanted, previous, demand);
    CurveFalls(price, liquidity, target, wanted, previous, demand);
  }
}
