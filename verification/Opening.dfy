// Opening: new troves join the table.

module Opening {
  import opened Arithmetic
  import opened Troves

  // The draws for one new trove.
  datatype Opening = Opening(crRatio: real, etherQuantity: real, inattention: real)

  ghost predicate Plausible(o: Opening)
  {
    o.crRatio >= CR_MINIMUM && o.etherQuantity > 0.0 && o.inattention > 0.0
  }

  ghost predicate AllPlausible(os: seq<Opening>)
  {
    forall i :: 0 <= i < |os| ==> Plausible(os[i])
  }

  function OpenTrove(o: Opening, price: real): Trove
    requires o.crRatio != 0.0
  {
    Trove(price, o.etherQuantity, o.crRatio, price * o.etherQuantity / o.crRatio, o.inattention, o.crRatio)
  }

  function Opened(os: seq<Opening>, price: real): seq<Trove>
    requires forall i :: 0 <= i < |os| ==> os[i].crRatio != 0.0
  {
    seq(|os|, i requires 0 <= i < |os| && os[i].crRatio != 0.0 => OpenTrove(os[i], price))
  }

  // The trove holds the drawn collateral at the given ether price, has the drawn inattention, and
  // owes what gives it the drawn ratio.
  ghost predicate AsDrawn(t: Trove, o: Opening, price: real)
  {
    && t.etherPrice == price && t.etherQuantity == o.etherQuantity && t.inattention == o.inattention
    && t.crInitial == t.crCurrent == o.crRatio
    && t.supply * o.crRatio == price * o.etherQuantity
  }

  lemma OpenTroveAsDrawn(o: Opening, price: real)
    requires Plausible(o)
    ensures AsDrawn(OpenTrove(o, price), o, price)
  {
    Quotient(price * o.etherQuantity, o.crRatio);
  }

  // A new trove is as drawn, sound and backed, and its chosen and its recorded ratio are the true one.
  lemma OpenTroveKeeps(o: Opening, price: real)
    requires Plausible(o) && price > 0.0
    ensures var t := OpenTrove(o, price);
      AsDrawn(t, o, price) && Sound(t) && Fresh(t) && Backed(t, price) && t.crInitial == TrueRatio(t) == o.crRatio
  {
    OpenTroveAsDrawn(o, price);
    var value := price * o.etherQuantity;
    assert value > 0.0;
    RestoredRatio(value, o.crRatio);
    RatioMeansBacked(OpenTrove(o, price));
  }

  // The new troves are the draws, one for one.
  ghost predicate AllAsDrawn(ts: seq<Trove>, os: seq<Opening>, price: real)
  {
    |ts| == |os| && forall i :: 0 <= i < |os| ==> AsDrawn(ts[i], os[i], price)
  }

  ghost function Quantities(os: seq<Opening>): seq<real>
  {
    seq(|os|, i requires 0 <= i < |os| => os[i].etherQuantity)
  }

  lemma {:induction false} DrawnEther(ts: seq<Trove>, os: seq<Opening>, price: real)
    requires AllAsDrawn(ts, os, price)
    ensures TotalEther(ts) == Sum(Quantities(os))
  {
    if os == [] {
    } else {
      var n := |os| - 1;
      DrawnEther(ts[..n], os[..n], price);
      assert Quantities(os)[..n] == Quantities(os[..n]);
    }
  }

  lemma OpenedAsDrawn(os: seq<Opening>, price: real)
    requires AllPlausible(os)
    ensures AllAsDrawn(Opened(os, price), os, price) && TotalEther(Opened(os, price)) == Sum(Quantities(os))
  {
    forall i | 0 <= i < |os|
      ensures AsDrawn(Opened(os, price)[i], os[i], price)
    {
      OpenTroveAsDrawn(os[i], price);
    }
    DrawnEther(Opened(os, price), os, price);
  }

  lemma OpenedKeep(os: seq<Opening>, price: real)
    requires AllPlausible(os) && price > 0.0
    ensures AllSound(Opened(os, price)) && AllFresh(Opened(os, price)) && AllBacked(Opened(os, price), price)
  {
    forall i | 0 <= i < |os|
      ensures var t := Opened(os, price)[i]; Sound(t) && Fresh(t) && Backed(t, price)
    {
      OpenTroveKeeps(os[i], price);
    }
  }
}
