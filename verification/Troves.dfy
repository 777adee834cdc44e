// The trove table of the macro model: its rows, its sums, and selections of its rows.

module Troves {
  import opened Arithmetic

  // One row of the table.
  datatype Trove = Trove(
    etherPrice: real,
    etherQuantity: real,
    crInitial: real,     // the ratio the owner chose when opening
    supply: real,        // debt, in the stablecoin
    inattention: real,   // how far the ratio may drift before the owner acts
    crCurrent: real)     // the ratio as last recorded; adjusting does not refresh it

  const CR_MINIMUM: real := 1.1

  ghost predicate Sound(t: Trove)
  {
    t.etherPrice > 0.0 && t.etherQuantity > 0.0 && t.crInitial >= CR_MINIMUM && t.supply > 0.0 && t.inattention > 0.0
  }

  ghost predicate AllSound(ts: seq<Trove>)
  {
    forall i :: 0 <= i < |ts| ==> Sound(ts[i])
  }

  // The trove holds the given ether price and its collateral covers 1.1 times its debt.
  ghost predicate Backed(t: Trove, price: real)
  {
    t.etherPrice == price && price * t.etherQuantity >= CR_MINIMUM * t.supply
  }

  ghost predicate AllBacked(ts: seq<Trove>, price: real)
  {
    forall i :: 0 <= i < |ts| ==> Backed(ts[i], price)
  }

  function TrueRatio(t: Trove): real
    requires t.supply != 0.0
  {
    t.etherPrice * t.etherQuantity / t.supply
  }

  // The recorded ratio is the true one.
  ghost predicate Fresh(t: Trove)
  {
    t.supply != 0.0 && t.crCurrent == TrueRatio(t)
  }

  ghost predicate AllFresh(ts: seq<Trove>)
  {
    forall i :: 0 <= i < |ts| ==> Fresh(ts[i])
  }

  // ----- Sums over the table -----

  function TotalSupply(ts: seq<Trove>): real
  {
    if ts == [] then 0.0 else TotalSupply(ts[..|ts| - 1]) + ts[|ts| - 1].supply
  }

  function TotalEther(ts: seq<Trove>): real
  {
    if ts == [] then 0.0 else TotalEther(ts[..|ts| - 1]) + ts[|ts| - 1].etherQuantity
  }

  ghost function Changes(before: seq<Trove>, after: seq<Trove>): seq<real>
    requires |before| == |after|
  {
    seq(|before|, i requires 0 <= i < |before| => after[i].supply - before[i].supply)
  }

  // Sum over the rows of the signed change in debt.
  ghost function NetChange(before: seq<Trove>, after: seq<Trove>): real
    requires |before| == |after|
  {
    Sum(Changes(before, after))
  }

  ghost function Rise(before: Trove, after: Trove): real
  {
    if after.supply > before.supply then after.supply - before.supply else 0.0
  }

  ghost function Rises(before: seq<Trove>, after: seq<Trove>): seq<real>
    requires |before| == |after|
  {
    seq(|before|, i requires 0 <= i < |before| => Rise(before[i], after[i]))
  }

  // Sum over the rows of the increase in debt; rows whose debt falls count as zero.
  ghost function GrossIncrease(before: seq<Trove>, after: seq<Trove>): real
    requires |before| == |after|
  {
    Sum(Rises(before, after))
  }

  lemma TotalSupplyAppend(ts: seq<Trove>, t: Trove)
    ensures TotalSupply(ts + [t]) == TotalSupply(ts) + t.supply
    ensures TotalEther(ts + [t]) == TotalEther(ts) + t.etherQuantity
  {
    assert (ts + [t])[..|ts + [t]| - 1] == ts;
  }

  lemma {:induction false} TotalSupplyConcat(a: seq<Trove>, b: seq<Trove>)
    ensures TotalSupply(a + b) == TotalSupply(a) + TotalSupply(b)
    ensures TotalEther(a + b) == TotalEther(a) + TotalEther(b)
  {
    if b == [] {
      assert a + b == a;
    } else {
      var n := |b| - 1;
      TotalSupplyConcat(a, b[..n]);
      assert (a + b)[..|a + b| - 1] == a + b[..n];
    }
  }

  lemma {:induction false} TotalSupplyPositive(ts: seq<Trove>)
    requires AllSound(ts)
    ensures TotalSupply(ts) >= 0.0
    ensures ts != [] ==> TotalSupply(ts) > 0.0
  {
    if ts == [] {
    } else {
      TotalSupplyPositive(ts[..|ts| - 1]);
    }
  }

  // Each total depends on its own column only.
  lemma {:induction false} TotalEtherByColumn(a: seq<Trove>, b: seq<Trove>)
    requires |a| == |b| && forall i :: 0 <= i < |a| ==> a[i].etherQuantity == b[i].etherQuantity
    ensures TotalEther(a) == TotalEther(b)
  {
    if a == [] {
    } else {
      TotalEtherByColumn(a[..|a| - 1], b[..|b| - 1]);
    }
  }

  lemma {:induction false} TotalSupplyByColumn(a: seq<Trove>, b: seq<Trove>)
    requires |a| == |b| && forall i :: 0 <= i < |a| ==> a[i].supply == b[i].supply
    ensures TotalSupply(a) == TotalSupply(b)
  {
    if a == [] {
    } else {
      TotalSupplyByColumn(a[..|a| - 1], b[..|b| - 1]);
    }
  }

  lemma {:induction false} TotalSupplyWithout(ts: seq<Trove>, k: nat)
    requires k < |ts|
    ensures TotalSupply(ts) == TotalSupply(ts[..k] + ts[k + 1..]) + ts[k].supply
  {
    TotalSupplyConcat(ts[..k], ts[k + 1..]);
    TotalSupplyAppend(ts[..k], ts[k]);
    TotalSupplyConcat(ts[..k] + [ts[k]], ts[k + 1..]);
    assert ts == ts[..k] + [ts[k]] + ts[k + 1..];
  }

  lemma MultisetWithout(ts: seq<Trove>, k: nat)
    requires k < |ts|
    ensures multiset(ts[..k] + ts[k + 1..]) == multiset(ts) - multiset{ts[k]}
  {
    assert ts == ts[..k] + [ts[k]] + ts[k + 1..];
  }

  // Reordering the table does not change its total.
  lemma {:induction false} TotalSupplyOfReordering(a: seq<Trove>, b: seq<Trove>)
    requires multiset(a) == multiset(b)
    ensures TotalSupply(a) == TotalSupply(b)
    decreases |a|
  {
    if a == [] {
      assert |b| == |multiset(b)| == 0;
    } else {
      var n := |a| - 1;
      assert a[n] in multiset(b);
      var k :| 0 <= k < |b| && b[k] == a[n];
      MultisetWithout(a, n);
      MultisetWithout(b, k);
      TotalSupplyOfReordering(a[..n] + a[n + 1..], b[..k] + b[k + 1..]);
      TotalSupplyWithout(a, n);
      TotalSupplyWithout(b, k);
    }
  }

  lemma {:induction false} NetChangeIsDifference(before: seq<Trove>, after: seq<Trove>)
    requires |before| == |after|
    ensures TotalSupply(after) == TotalSupply(before) + NetChange(before, after)
  {
    if before == [] {
    } else {
      var n := |before| - 1;
      NetChangeIsDifference(before[..n], after[..n]);
      assert Changes(before, after)[..n] == Changes(before[..n], after[..n]);
    }
  }

  lemma GrossIncreaseNonNegative(before: seq<Trove>, after: seq<Trove>)
    requires |before| == |after|
    ensures GrossIncrease(before, after) >= 0.0
  {
    SumNonNegative(Rises(before, after));
  }

  // ----- Selecting rows -----

  // The rows whose index is in `indices`, in table order.
  function Rows(ts: seq<Trove>, indices: set<nat>): seq<Trove>
  {
    if ts == [] then []
    else
      var n := |ts| - 1;
      Rows(ts[..n], indices) + (if n in indices then [ts[n]] else [])
  }

  function Below(indices: set<nat>, n: nat): set<nat>
  {
    set i | i in indices && i < n
  }

  lemma BelowStep(indices: set<nat>, n: nat)
    ensures |Below(indices, n + 1)| == |Below(indices, n)| + (if n in indices then 1 else 0)
  {
    if n in indices {
      assert Below(indices, n + 1) == Below(indices, n) + {n};
    } else {
      assert Below(indices, n + 1) == Below(indices, n);
    }
  }

  lemma {:induction false} RowsLength(ts: seq<Trove>, indices: set<nat>)
    ensures |Rows(ts, indices)| == |Below(indices, |ts|)|
  {
    if ts == [] {
      assert Below(indices, 0) == {};
    } else {
      RowsLength(ts[..|ts| - 1], indices);
      BelowStep(indices, |ts| - 1);
    }
  }

  // Where each selected row ends up: its place is the number of selected rows before it.
  lemma {:induction false} RowsAt(ts: seq<Trove>, indices: set<nat>, i: nat)
    requires i in indices && i < |ts|
    ensures |Below(indices, i)| < |Rows(ts, indices)| && Rows(ts, indices)[|Below(indices, i)|] == ts[i]
  {
    var n := |ts| - 1;
    if i < n {
      RowsAt(ts[..n], indices, i);
    } else {
      RowsLength(ts[..n], indices);
    }
  }

  // Nothing else is selected.
  lemma {:induction false} RowsAreRows(ts: seq<Trove>, indices: set<nat>)
    ensures forall t :: t in Rows(ts, indices) ==> exists i :: i in indices && i < |ts| && ts[i] == t
  {
    if ts == [] {
    } else {
      var n := |ts| - 1;
      RowsAreRows(ts[..n], indices);
      forall t | t in Rows(ts, indices)
        ensures exists i :: i in indices && i < |ts| && ts[i] == t
      {
        if t in Rows(ts[..n], indices) {
          var i :| i in indices && i < n && ts[..n][i] == t;
          assert ts[i] == t;
        } else {
          assert n in indices && ts[n] == t;
        }
      }
    }
  }

  // A row of the table is selected if its index is.
  lemma RowsHold(ts: seq<Trove>, indices: set<nat>)
    ensures forall t :: t in Rows(ts, indices) <==> exists i :: i in indices && i < |ts| && ts[i] == t
  {
    RowsAreRows(ts, indices);
    forall i | i in indices && i < |ts|
      ensures ts[i] in Rows(ts, indices)
    {
      RowsAt(ts, indices, i);
    }
  }

  lemma RowsStep(ts: seq<Trove>, indices: set<nat>)
    requires ts != []
    ensures var n := |ts| - 1;
      if n in indices then
        && TotalSupply(Rows(ts, indices)) == TotalSupply(Rows(ts[..n], indices)) + ts[n].supply
        && TotalEther(Rows(ts, indices)) == TotalEther(Rows(ts[..n], indices)) + ts[n].etherQuantity
        && |Rows(ts, indices)| == |Rows(ts[..n], indices)| + 1
      else Rows(ts, indices) == Rows(ts[..n], indices)
  {
    TotalSupplyAppend(Rows(ts[..|ts| - 1], indices), ts[|ts| - 1]);
  }

  // A set of indices and its complement split the table and its totals.
  lemma {:induction false} RowsSplit(ts: seq<Trove>, a: set<nat>, b: set<nat>)
    requires forall i: nat :: i < |ts| ==> (i in a <==> i !in b)
    ensures TotalSupply(Rows(ts, a)) + TotalSupply(Rows(ts, b)) == TotalSupply(ts)
    ensures TotalEther(Rows(ts, a)) + TotalEther(Rows(ts, b)) == TotalEther(ts)
    ensures |Rows(ts, a)| + |Rows(ts, b)| == |ts|
  {
    if ts == [] {
    } else {
      RowsSplit(ts[..|ts| - 1], a, b);
      RowsStep(ts, a);
      RowsStep(ts, b);
    }
  }

  lemma RatioMeansBacked(t: Trove)
    requires Sound(t) && Fresh(t)
    ensures t.crCurrent >= CR_MINIMUM <==> Backed(t, t.etherPrice)
  {
    Quotient(t.etherPrice * t.etherQuantity, t.supply);
    FactorOrder(t.supply, t.crCurrent, CR_MINIMUM);
  }
}
