// Redemption: the floor arbitrageurs buy back debt, closing the riskiest troves first and paying
// down the next one with what is left.

module Redemption {
  import opened Arithmetic
  import opened Troves

  // What `sort_values(by='CR_current', ascending=True)` can return: any ascending order of the
  // table. The sort breaks ties arbitrarily, so nothing more is said.
  ghost predicate AscendingOrder(order: seq<Trove>, ts: seq<Trove>)
  {
    multiset(order) == multiset(ts) && Ascending(order)
  }

  ghost predicate Ascending(ts: seq<Trove>)
  {
    forall i, j :: 0 <= i < j < |ts| ==> ts[i].crCurrent <= ts[j].crCurrent
  }

  lemma InsertKeepsAscending(ts: seq<Trove>, k: nat, t: Trove)
    requires Ascending(ts) && k <= |ts|
    requires k > 0 ==> ts[k - 1].crCurrent <= t.crCurrent
    requires k < |ts| ==> t.crCurrent <= ts[k].crCurrent
    ensures Ascending(ts[..k] + [t] + ts[k..])
  {
    var longer := ts[..k] + [t] + ts[k..];
    assert forall i :: 0 <= i < k ==> longer[i] == ts[i] && ts[i].crCurrent <= t.crCurrent by {
      assert forall i :: 0 <= i < k - 1 ==> ts[i].crCurrent <= ts[k - 1].crCurrent;
    }
    assert longer[k] == t;
    assert forall j :: k < j < |longer| ==> longer[j] == ts[j - 1] && t.crCurrent <= ts[j - 1].crCurrent by {
      assert forall j :: k < j < |ts| ==> ts[k].crCurrent <= ts[j].crCurrent;
    }
  }

  lemma MultisetWith(ts: seq<Trove>, k: nat, t: Trove)
    requires k <= |ts|
    ensures multiset(ts[..k] + [t] + ts[k..]) == multiset(ts) + multiset{t}
  {
    assert ts == ts[..k] + ts[k..];
  }

  lemma InsertionPoint(ts: seq<Trove>, r: real) returns (k: nat)
    ensures k <= |ts|
    ensures k > 0 ==> ts[k - 1].crCurrent <= r
    ensures k < |ts| ==> r <= ts[k].crCurrent
  {
    k := 0;
    while k < |ts| && ts[k].crCurrent < r
      invariant k <= |ts|
      invariant k > 0 ==> ts[k - 1].crCurrent <= r
    {
      k := k + 1;
    }
  }

  // Every table has an ascending order.
  lemma {:induction false} AscendingOrderExists(ts: seq<Trove>) returns (order: seq<Trove>)
    ensures AscendingOrder(order, ts)
  {
    if ts == [] {
      order := [];
    } else {
      var n := |ts| - 1;
      var rest := AscendingOrderExists(ts[..n]);
      var k := InsertionPoint(rest, ts[n].crCurrent);
      order := rest[..k] + [ts[n]] + rest[k..];
      InsertKeepsAscending(rest, k, ts[n]);
      MultisetWith(rest, k, ts[n]);
      assert ts == ts[..n] + [ts[n]];
    }
  }

  lemma OrderIsTable(order: seq<Trove>, ts: seq<Trove>)
    requires AscendingOrder(order, ts)
    ensures |order| == |ts| && TotalSupply(order) == TotalSupply(ts)
    ensures forall t :: t in order <==> t in ts
  {
    TotalSupplyOfReordering(order, ts);
    assert |multiset(order)| == |multiset(ts)|;
    forall t
      ensures t in order <==> t in ts
    {
      assert t in order <==> t in multiset(order);
    }
  }

  // ----- How many troves are redeemed in full -----

  function RedeemCount(ts: seq<Trove>, pool: real, from: nat): (n: nat)
    requires from < |ts| && TotalSupply(ts[..from]) <= pool < TotalSupply(ts)
    ensures from <= n < |ts| && TotalSupply(ts[..n]) <= pool < TotalSupply(ts[..n + 1])
    decreases |ts| - from
  {
    assert ts[..|ts|] == ts;
    if TotalSupply(ts[..from + 1]) > pool then from else RedeemCount(ts, pool, from + 1)
  }

  ghost predicate Redeemable(ts: seq<Trove>, pool: real)
  {
    0.0 <= pool < TotalSupply(ts)
  }

  // The number of troves closed by redeeming `pool` from the front of the table.
  function NumberRedeemed(ts: seq<Trove>, pool: real): (n: nat)
    requires Redeemable(ts, pool)
    ensures n < |ts| && TotalSupply(ts[..n]) <= pool < TotalSupply(ts[..n + 1])
  {
    assert ts != [] && ts[..0] == [];
    RedeemCount(ts, pool, 0)
  }

  lemma PrefixStep(ts: seq<Trove>, m: nat)
    requires m < |ts|
    ensures TotalSupply(ts[..m + 1]) == TotalSupply(ts[..m]) + ts[m].supply
  {
    assert ts[..m + 1][..m] == ts[..m];
  }

  lemma {:induction false} PrefixesGrow(ts: seq<Trove>, m: nat, n: nat)
    requires AllSound(ts) && m <= n <= |ts|
    ensures TotalSupply(ts[..m]) <= TotalSupply(ts[..n])
    decreases n - m
  {
    if m == n {
    } else {
      PrefixesGrow(ts, m, n - 1);
      PrefixStep(ts, n - 1);
    }
  }

  // The count is maximal: a prefix of the table fits in the pool exactly when it is no longer.
  lemma RedeemedPrefixIsMaximal(ts: seq<Trove>, pool: real, m: nat)
    requires AllSound(ts) && Redeemable(ts, pool) && m <= |ts|
    ensures TotalSupply(ts[..m]) <= pool <==> m <= NumberRedeemed(ts, pool)
  {
    var n := NumberRedeemed(ts, pool);
    if m <= n {
      PrefixesGrow(ts, m, n);
    } else {
      PrefixesGrow(ts, n + 1, m);
    }
  }

  // ----- The table after redemption -----

  // A trove paid down by `residual`: debt and collateral of equal value leave, and the recorded
  // ratio is refreshed.
  function PaidDown(t: Trove, residual: real, price: real): Trove
    requires price != 0.0 && t.supply != residual
  {
    var supply := t.supply - residual;
    var ether := t.etherQuantity - residual / price;
    t.(supply := supply, etherQuantity := ether, crCurrent := price * ether / supply)
  }

  function Residual(ts: seq<Trove>, pool: real): (r: real)
    requires Redeemable(ts, pool)
    ensures 0.0 <= r < ts[NumberRedeemed(ts, pool)].supply
  {
    var n := NumberRedeemed(ts, pool);
    PrefixStep(ts, n);
    pool - TotalSupply(ts[..n])
  }

  function Redeem(ts: seq<Trove>, pool: real, price: real): seq<Trove>
    requires Redeemable(ts, pool) && price != 0.0
  {
    var n := NumberRedeemed(ts, pool);
    [PaidDown(ts[n], Residual(ts, pool), price)] + ts[n + 1..]
  }

  // Redemption is exact: the table's debt falls by the pool, no more and no less.
  lemma RedeemExact(ts: seq<Trove>, pool: real, price: real)
    requires Redeemable(ts, pool) && price != 0.0
    ensures TotalSupply(Redeem(ts, pool, price)) == TotalSupply(ts) - pool
    ensures |Redeem(ts, pool, price)| == |ts| - NumberRedeemed(ts, pool)
  {
    var n := NumberRedeemed(ts, pool);
    var head := PaidDown(ts[n], Residual(ts, pool), price);
    PrefixStep(ts, n);
    TotalSupplyConcat(ts[..n + 1], ts[n + 1..]);
    assert ts == ts[..n + 1] + ts[n + 1..];
    TotalSupplyConcat([head], ts[n + 1..]);
    TotalSupplyAppend([], head);
    assert [] + [head] == [head];
  }

  // A payment takes its own amount of debt and collateral of equal value, refreshes the recorded ratio
  // and touches nothing else.
  ghost predicate Pays(t: Trove, p: Trove, paid: real, price: real)
  {
    && p == t.(supply := t.supply - paid, etherQuantity := p.etherQuantity, crCurrent := p.crCurrent)
    && price * (t.etherQuantity - p.etherQuantity) == paid
    && Fresh(p)
  }

  // Paying down a trove by less than its debt improves its ratio exactly when its collateral
  // covers its debt (paying nothing leaves it as it is); a covered trove keeps positive collateral.
  lemma PayingDownHelpsTheCovered(t: Trove, residual: real, price: real)
    requires Sound(t) && t.etherPrice == price && 0.0 <= residual < t.supply
    ensures var p := PaidDown(t, residual, price);
      && p.supply > 0.0 && Pays(t, p, residual, price)
      && (residual > 0.0 ==> (p.crCurrent >= TrueRatio(t) <==> price * t.etherQuantity >= t.supply))
      && (residual == 0.0 ==> p.crCurrent == TrueRatio(t))
      && (price * t.etherQuantity >= t.supply ==> p.etherQuantity > 0.0)
  {
    var p := PaidDown(t, residual, price);
    var value := price * t.etherQuantity;
    ValueAfterPayment(t, residual, price);
    QuotientsAfterPayment(value, t.supply, residual);
    if value >= t.supply {
      SignOfProduct(p.etherQuantity, price);
    }
  }

  lemma ValueAfterPayment(t: Trove, residual: real, price: real)
    requires price != 0.0 && t.supply != residual
    ensures price * PaidDown(t, residual, price).etherQuantity == price * t.etherQuantity - residual
  {
    assert residual / price * price == residual;
  }

  lemma QuotientsAfterPayment(value: real, debt: real, paid: real)
    requires debt > 0.0 && 0.0 <= paid < debt
    ensures paid > 0.0 ==> ((value - paid) / (debt - paid) >= value / debt <==> value >= debt)
    ensures paid == 0.0 ==> (value - paid) / (debt - paid) == value / debt
  {
    var before, after, left := value / debt, (value - paid) / (debt - paid), debt - paid;
    Quotient(value, debt);
    Quotient(value - paid, left);
    var excess, change := before - 1.0, after - before;
    assert excess * debt == value - debt;
    SignOfProduct(excess, debt);
    assert change * left == excess * paid by {
      assert change * left == after * left - before * left;
      assert before * left == before * debt - before * paid;
    }
    if paid > 0.0 {
      SignOfProduct(excess, paid);
      SignOfProduct(change, left);
    }
  }

  lemma PaidDownKeeps(t: Trove, residual: real, price: real)
    requires Sound(t) && Backed(t, price) && 0.0 <= residual < t.supply
    ensures Sound(PaidDown(t, residual, price)) && Backed(PaidDown(t, residual, price), price)
    ensures PaidDown(t, residual, price).crCurrent >= TrueRatio(t)
  {
    PayingDownHelpsTheCovered(t, residual, price);
    ValueAfterPayment(t, residual, price);
  }

  lemma RedeemKeeps(ts: seq<Trove>, pool: real, price: real)
    requires Redeemable(ts, pool) && price != 0.0
    requires AllSound(ts) && AllBacked(ts, price)
    ensures AllSound(Redeem(ts, pool, price)) && AllBacked(Redeem(ts, pool, price), price)
  {
    var n := NumberRedeemed(ts, pool);
    PaidDownKeeps(ts[n], Residual(ts, pool), price);
  }

  // Riskiest first: the table splits into troves redeemed in full, one paid down, and the rest,
  // untouched; by recorded ratio, no touched trove is safer than an untouched one.
  lemma RiskiestFirst(order: seq<Trove>, ts: seq<Trove>, pool: real, price: real)
    requires AscendingOrder(order, ts) && Redeemable(order, pool) && price != 0.0
    ensures Residual(order, pool) < order[NumberRedeemed(order, pool)].supply
    ensures var n, after := NumberRedeemed(order, pool), Redeem(order, pool, price);
      && TotalSupply(order[..n]) <= pool < TotalSupply(order[..n + 1])
      && after[0] == PaidDown(order[n], pool - TotalSupply(order[..n]), price)
      && multiset(order[..n + 1]) + multiset(after[1..]) == multiset(ts)
      && (forall t, u :: t in order[..n + 1] && u in after[1..] ==> t.crCurrent <= u.crCurrent)
  {
    var n := NumberRedeemed(order, pool);
    assert order == order[..n + 1] + order[n + 1..];
    assert Redeem(order, pool, price)[1..] == order[n + 1..];
  }

  // A pool smaller than the first trove's debt only pays that trove down.
  lemma RedeemFromFirst(ts: seq<Trove>, pool: real, price: real)
    requires AllSound(ts) && ts != [] && 0.0 <= pool < ts[0].supply && price != 0.0
    ensures Redeemable(ts, pool) && Redeem(ts, pool, price) == [PaidDown(ts[0], pool, price)] + ts[1..]
  {
    PrefixesGrow(ts, 1, |ts|);
    PrefixStep(ts, 0);
    assert ts[..|ts|] == ts && ts[..0] == [];
    RedeemedPrefixIsMaximal(ts, pool, 1);
  }

  lemma TwoRowOrder(order: seq<Trove>, a: Trove, b: Trove)
    requires AscendingOrder(order, [a, b]) && b.crCurrent < a.crCurrent
    ensures order == [b, a]
  {
    assert |order| == |multiset(order)| == 2;
    assert order == [order[0], order[1]];
    assert multiset(order) == multiset{order[0], order[1]};
    assert order[0] in multiset(order) && order[1] in multiset(order);
    assert a in multiset(order) && b in multiset(order);
  }

  // The redemption loop. The source reads the head of the table after every drop without checking
  // that one is left; a pool smaller than the table's debt guarantees it.
  method RedeemRiskiest(order: seq<Trove>, pool: real, price: real) returns (troves: seq<Trove>, count: nat)
    requires Redeemable(order, pool) && price != 0.0
    ensures count == NumberRedeemed(order, pool)
    ensures troves == Redeem(order, pool, price)
  {
    troves := order;
    assert troves != [];
    var working := troves[0].supply;
    var redeemed := working;
    count := 0;
    PrefixStep(order, 0);
    assert order[..|order|] == order;
    while redeemed <= pool
      invariant count < |order| && troves == order[count..]
      invariant working == order[count].supply && redeemed == TotalSupply(order[..count + 1])
      invariant TotalSupply(order[..count]) <= pool
      invariant RedeemCount(order, pool, count) == NumberRedeemed(order, pool)
      decreases |troves|
    {
      assert count + 1 < |order|;
      troves := troves[1..];
      working := troves[0].supply;
      redeemed := redeemed + working;
      count := count + 1;
      PrefixStep(order, count);
    }
    PrefixStep(order, count);
    redeemed := redeemed - working;
    var residual := pool - redeemed;
    assert residual == Residual(order, pool) && troves[1..] == order[count + 1..];
    troves := [PaidDown(troves[0], residual, price)] + troves[1..];
  }
}
