// Closing: a random sample of the table is dropped.

module Closing {
  import opened Troves

  // What `random.sample(range(n), k)` can return.
  ghost predicate IsSample(drops: seq<nat>, n: nat)
  {
    && (forall i :: 0 <= i < |drops| ==> drops[i] < n)
    && (forall i, j :: 0 <= i < j < |drops| ==> drops[i] != drops[j])
  }

  function ToSet(drops: seq<nat>): set<nat>
  {
    set i | i in drops
  }

  function Complement(indices: set<nat>, n: nat): set<nat>
  {
    set i: nat | i < n && i !in indices
  }

  function Close(ts: seq<Trove>, drops: seq<nat>): seq<Trove>
  {
    Rows(ts, Complement(ToSet(drops), |ts|))
  }

  function Closed(ts: seq<Trove>, drops: seq<nat>): seq<Trove>
  {
    Rows(ts, ToSet(drops))
  }

  // The count that `close_troves` reports: it looks at the table after the drop.
  function ReportedCloses(remaining: nat, dropped: nat): int
  {
    if remaining < dropped then -999 else dropped
  }

  lemma {:induction false} SampleSize(drops: seq<nat>, n: nat)
    requires IsSample(drops, n)
    ensures |ToSet(drops)| == |drops|
  {
    if drops == [] {
      assert ToSet(drops) == {};
    } else {
      var k := |drops| - 1;
      SampleSize(drops[..k], n);
      assert ToSet(drops) == ToSet(drops[..k]) + {drops[k]};
      assert drops[k] !in drops[..k];
    }
  }

  lemma {:induction false} ComplementSize(indices: set<nat>, n: nat)
    requires forall i :: i in indices ==> i < n
    ensures |Complement(indices, n)| + |indices| == n
  {
    if n == 0 {
      assert indices == {} && Complement(indices, n) == {};
    } else if n - 1 in indices {
      ComplementSize(indices - {n - 1}, n - 1);
      assert Complement(indices, n) == Complement(indices - {n - 1}, n - 1);
    } else {
      ComplementSize(indices, n - 1);
      assert Complement(indices, n) == Complement(indices, n - 1) + {n - 1};
    }
  }

  // Closing drops exactly the sampled rows: as many rows go as were sampled, and the debt that
  // leaves is the debt of the sampled rows.
  lemma CloseDropsTheSample(ts: seq<Trove>, drops: seq<nat>)
    requires IsSample(drops, |ts|)
    ensures |Close(ts, drops)| == |ts| - |drops|
    ensures TotalSupply(Close(ts, drops)) == TotalSupply(ts) - TotalSupply(Closed(ts, drops))
    ensures forall t :: t in Close(ts, drops) <==> exists i: nat :: i < |ts| && i !in drops && ts[i] == t
  {
    var gone := ToSet(drops);
    var kept := Complement(gone, |ts|);
    RowsLength(ts, kept);
    RowsHold(ts, kept);
    RowsSplit(ts, kept, gone);
    SampleSize(drops, |ts|);
    ComplementSize(gone, |ts|);
    assert Below(kept, |ts|) == kept;
    forall t | t in Close(ts, drops)
      ensures exists i: nat :: i < |ts| && i !in drops && ts[i] == t
    {
      var i :| i in kept && i < |ts| && ts[i] == t;
      assert i !in drops;
    }
    forall i: nat | i < |ts| && i !in drops
      ensures ts[i] in Close(ts, drops)
    {
      assert i in kept;
    }
  }

  // A row that is not sampled moves up by the number of sampled rows above it, and no further.
  lemma CloseKeepsOrder(ts: seq<Trove>, drops: seq<nat>, i: nat)
    requires IsSample(drops, |ts|)
    requires i < |ts| && i !in drops
    ensures var place := i - |Below(ToSet(drops), i)|;
      0 <= place < |Close(ts, drops)| && Close(ts, drops)[place] == ts[i]
  {
    var gone := ToSet(drops);
    var kept := Complement(gone, |ts|);
    ComplementSize(Below(gone, i), i);
    assert Complement(Below(gone, i), i) == Below(kept, i);
    RowsAt(ts, kept, i);
  }

  lemma CloseKeeps(ts: seq<Trove>, drops: seq<nat>, price: real)
    requires IsSample(drops, |ts|)
    requires AllSound(ts) && AllFresh(ts) && AllBacked(ts, price)
    ensures AllSound(Close(ts, drops)) && AllFresh(Close(ts, drops)) && AllBacked(Close(ts, drops), price)
  {
    CloseDropsTheSample(ts, drops);
    var kept := Close(ts, drops);
    forall k | 0 <= k < |kept|
      ensures Sound(kept[k]) && Fresh(kept[k]) && Backed(kept[k], price)
    {
      assert kept[k] in kept;
    }
  }
}
