// Facts about products, quotients and sums of reals, one nonlinear step at a time.

module Arithmetic {

  lemma SignOfProduct(x: real, scale: real)
    requires scale > 0.0
    ensures x * scale > 0.0 <==> x > 0.0
    ensures x * scale < 0.0 <==> x < 0.0
  {
  }

  lemma Distribute(a: real, b: real, c: real)
    ensures a * (b + c) == a * b + a * c
  {
  }

  lemma DifferenceScaled(x: real, y: real, scale: real)
    ensures (y - x) * scale == y * scale - x * scale
  {
  }

  // A positive factor keeps the order of what it scales.
  lemma FactorOrder(a: real, x: real, y: real)
    requires a > 0.0
    ensures a * x < a * y <==> x < y
  {
    DifferenceScaled(x, y, a);
    SignOfProduct(y - x, a);
  }

  lemma Ordered(scale: real, x: real, y: real, gap: real)
    requires scale > 0.0 && gap >= 0.0 && y * scale == x * scale + gap
    ensures x <= y && (gap > 0.0 ==> x < y)
  {
    var rise := y - x;
    DifferenceScaled(x, y, scale);
    assert rise * scale == gap;
    SignOfProduct(rise, scale);
  }

  lemma Dominates(a: real, b: real, x: real)
    requires a >= b && x >= 0.0
    ensures a * x >= b * x
  {
    DifferenceScaled(b, a, x);
    if x > 0.0 {
      SignOfProduct(a - b, x);
    }
  }

  lemma ProperFraction(a: real, x: real, product: real)
    requires 0.0 < a < 1.0 && x > 0.0 && product == a * x
    ensures 0.0 < product < x
  {
    var rest := 1.0 - a;
    DifferenceScaled(a, 1.0, x);
    assert rest * x == x - product;
    SignOfProduct(rest, x);
    SignOfProduct(a, x);
  }

  lemma Quotient(x: real, y: real)
    requires y != 0.0
    ensures x / y * y == x
  {
  }

  lemma Reassociate(x: real, a: real, b: real)
    ensures x * (a * b) == (x * a) * b
    ensures x * (a * b) == (x * b) * a
  {
  }

  lemma ProductOfThree(a: real, b: real, c: real, ab: real)
    requires ab == a * b
    ensures a * (b * c) == ab * c
  {
  }

  lemma SumOfFractions(x: real, y: real, a: real)
    requires a != 0.0
    ensures (x + y) / a == x / a + y / a
  {
  }

  // Fractions compare as their cross products.
  lemma FractionGap(x: real, a: real, y: real, b: real, gap: real)
    requires a > 0.0 && b > 0.0 && gap >= 0.0 && y * a == x * b + gap
    ensures x / a <= y / b && (gap > 0.0 ==> x / a < y / b)
  {
    var p, q := x / a, y / b;
    Quotient(x, a);
    Quotient(y, b);
    Reassociate(p, a, b);
    Reassociate(q, a, b);
    SignOfProduct(a, b);
    Ordered(a * b, p, q, gap);
  }

  // Equal products of positive factors: the larger the one factor, the smaller the other.
  lemma EqualProductsOppose(a: real, x: real, b: real, y: real)
    requires a > 0.0 && b > 0.0 && x > 0.0 && y > 0.0
    requires a * x == b * y
    ensures a < b <==> y < x
    ensures a == b <==> x == y
  {
    FactorOrder(x, a, b);  // a * x < b * x iff a < b
    FactorOrder(x, b, a);
    FactorOrder(b, y, x);  // b * y < b * x iff y < x
    FactorOrder(b, x, y);
  }

  lemma Regroup(a: real, b: real, c: real, d: real)
    ensures (a * b) * (c * d) == (a * c) * (b * d)
  {
  }

  // Dividing by a quotient gives back its divisor.
  lemma RestoredRatio(value: real, chosen: real)
    requires value > 0.0 && chosen > 0.0
    ensures value / chosen > 0.0
    ensures value / (value / chosen) == chosen
  {
    var debt := value / chosen;
    assert debt * chosen == value;
  }

  // ----- Sums -----

  function Sum(xs: seq<real>): real
  {
    if xs == [] then 0.0 else Sum(xs[..|xs| - 1]) + xs[|xs| - 1]
  }

  lemma SumAppend(xs: seq<real>, x: real)
    ensures Sum(xs + [x]) == Sum(xs) + x
  {
    assert (xs + [x])[..|xs + [x]| - 1] == xs;
  }

  lemma {:induction false} SumScaled(xs: seq<real>, ys: seq<real>, rate: real)
    requires |xs| == |ys| && forall i :: 0 <= i < |xs| ==> xs[i] == rate * ys[i]
    ensures Sum(xs) == rate * Sum(ys)
  {
    if xs == [] {
    } else {
      var n := |xs| - 1;
      SumScaled(xs[..n], ys[..n], rate);
      Distribute(rate, Sum(ys[..n]), ys[n]);
    }
  }

  lemma {:induction false} SumNonNegative(xs: seq<real>)
    requires forall i :: 0 <= i < |xs| ==> xs[i] >= 0.0
    ensures Sum(xs) >= 0.0
  {
    if xs == [] {
    } else {
      SumNonNegative(xs[..|xs| - 1]);
    }
  }

  lemma {:induction false} SumOfZeros(xs: seq<real>)
    requires forall i :: 0 <= i < |xs| ==> xs[i] == 0.0
    ensures Sum(xs) == 0.0
  {
    if xs == [] {
    } else {
      SumOfZeros(xs[..|xs| - 1]);
    }
  }
}
