/** Pearson correlation of two price series through their returns, and the cached correlation matrix. */
module Correlation {
  import opened Common

  datatype CorrelationError = TooFewPoints | LengthMismatch

  // ---------- Sums over sequences ----------

  function Square(x: real): real {
    Prod(x, x)
  }

  function Sum(a: seq<real>): real {
    if a == [] then 0.0 else Sum(Init(a)) + Last(a)
  }

  function Dot(a: seq<real>, b: seq<real>): real
    requires |a| == |b|
  {
    if a == [] then 0.0 else Dot(Init(a), Init(b)) + Prod(Last(a), Last(b))
  }

  /** n times the sum of products minus the product of sums: n^2 times the covariance. */
  function Covariation(a: seq<real>, b: seq<real>): real
    requires |a| == |b|
  {
    Prod(|a| as real, Dot(a, b)) - Prod(Sum(a), Sum(b))
  }

  predicate Constant(a: seq<real>) {
    forall i, j :: 0 <= i < j < |a| ==> a[i] == a[j]
  }

  // ---------- The source's computation ----------

  /** Period-over-period returns; a period that starts at zero is skipped. */
  function Returns(prices: seq<real>): seq<real> {
    if |prices| < 2 then []
    else
      var prev, price := prices[|prices| - 2], Last(prices);
      Returns(Init(prices)) + if prev == 0.0 then [] else [(price - prev) / prev]
  }

  method ComputeReturns(prices: seq<real>) returns (result: seq<real>)
    ensures result == Returns(prices)
  {
    result := [];
    if |prices| < 2 {
      return;
    }
    for i := 1 to |prices|
      invariant result == Returns(prices[..i])
    {
      var prev := prices[i - 1];
      assert Init(prices[..i + 1]) == prices[..i] && prices[..i + 1][i - 1] == prev;
      if prev != 0.0 {
        result := result + [(prices[i] - prev) / prev];
      }
    }
    assert prices[..|prices|] == prices;
  }

  function Clamp(x: real): (r: real)
    ensures -1.0 <= r <= 1.0
  {
    if x < -1.0 then -1.0 else if x > 1.0 then 1.0 else x
  }

  /** Four decimals, halves away from zero. */
  function Quantize(x: real): real {
    if x >= 0.0 then (x * 10000.0 + 0.5).Floor as real / 10000.0
    else -((-x * 10000.0 + 0.5).Floor as real / 10000.0)
  }

  /** `root` is the floating-point square root. */
  function FromSums(count: nat, numerator: real, denomA: real, denomB: real, root: real -> real): real {
    if count < 2 || denomA <= 0.0 || denomB <= 0.0 then 0.0
    else
      var denom := root(Prod(denomA, denomB));
      if denom == 0.0 then 0.0 else Quantize(Clamp(numerator / denom))
  }

  /** The coefficient of two return series. `zip` cuts the products to the shorter series, while both
      series are summed whole and the count is the first one's. */
  function Coefficient(a: seq<real>, b: seq<real>, root: real -> real): real {
    var m := Min(|a|, |b|);
    var n := |a| as real;
    FromSums(|a|, Prod(n, Dot(a[..m], b[..m])) - Prod(Sum(a), Sum(b)), Prod(n, Dot(a, a)) - Square(Sum(a)),
             Prod(n, Dot(b, b)) - Square(Sum(b)), root)
  }

  function Pearson(a: seq<real>, b: seq<real>, root: real -> real): Result<real, CorrelationError> {
    if |a| < 2 then Err(TooFewPoints)
    else if |a| != |b| then Err(LengthMismatch)
    else Ok(Coefficient(Returns(a), Returns(b), root))
  }

  // ---------- Variation is nonnegative and vanishes exactly for constants ----------

  /** Sum of squared distances to y. */
  function SquaredDistance(a: seq<real>, y: real): real {
    if a == [] then 0.0 else SquaredDistance(Init(a), y) + Square(Last(a) - y)
  }

  /** The same sum multiplied out, from q = Dot(a, a), s = Sum(a) and n = |a|. */
  function Expanded(q: real, s: real, n: real, y: real): real {
    q - 2.0 * Prod(y, s) + Prod(n, Square(y))
  }

  lemma {:induction false} SquaredDistanceExpands(a: seq<real>, y: real)
    ensures SquaredDistance(a, y) == Expanded(Dot(a, a), Sum(a), |a| as real, y)
  {
    hide Prod;
    if a == [] {
      ExpandNone(y);
    } else {
      SquaredDistanceExpands(Init(a), y);
      ExpandOne(Dot(Init(a), Init(a)), Sum(Init(a)), |Init(a)| as real, Last(a), y);
      assert |a| as real == |Init(a)| as real + 1.0;
    }
  }

  lemma ExpandNone(y: real)
    ensures Expanded(0.0, 0.0, 0.0, y) == 0.0
  {
  }

  lemma ExpandOne(q: real, s: real, n: real, x: real, y: real)
    ensures Expanded(q, s, n, y) + Square(x - y) == Expanded(q + Square(x), s + x, n + 1.0, y)
  {
    assert (x - y) * (x - y) == x * x - 2.0 * (y * x) + y * y;
    assert 2.0 * (y * (s + x)) == 2.0 * (y * s) + 2.0 * (y * x);
    assert (n + 1.0) * (y * y) == n * (y * y) + y * y;
  }

  lemma SquareSign(d: real)
    ensures Square(d) >= 0.0 && (Square(d) == 0.0 <==> d == 0.0)
  {
    hide Prod;
    NothingTimes(0.0);
    if d > 0.0 {
      ProdIsPositive(d, d);
    } else if d < 0.0 {
      ProdIsPositive(-d, -d);
      NegatedSquare(d);
    }
  }

  lemma NegatedSquare(d: real)
    ensures Square(-d) == Square(d)
  {
    assert (-d) * (-d) == d * d;
  }

  lemma ProdIsPositive(x: real, y: real)
    requires x > 0.0 && y > 0.0
    ensures Prod(x, y) > 0.0
  {
  }

  lemma AllEqualSplits(a: seq<real>, y: real)
    requires a != []
    ensures (forall i :: 0 <= i < |a| ==> a[i] == y)
      <==> Last(a) == y && forall i :: 0 <= i < |Init(a)| ==> Init(a)[i] == y
  {
    assert forall i :: 0 <= i < |Init(a)| ==> Init(a)[i] == a[i];
    if Last(a) == y && forall i :: 0 <= i < |Init(a)| ==> Init(a)[i] == y {
      forall i | 0 <= i < |a|
        ensures a[i] == y
      {
        if i < |a| - 1 { assert a[i] == Init(a)[i]; }
      }
    }
  }

  lemma {:induction false} SquaredDistanceSign(a: seq<real>, y: real)
    ensures SquaredDistance(a, y) >= 0.0
    ensures SquaredDistance(a, y) == 0.0 <==> forall i :: 0 <= i < |a| ==> a[i] == y
  {
    hide Prod;
    if a != [] {
      SquaredDistanceSign(Init(a), y);
      SquareSign(Last(a) - y);
      AllEqualSplits(a, y);
    }
  }

  lemma VariationGrows(a: seq<real>)
    requires a != []
    ensures Covariation(a, a) == Covariation(Init(a), Init(a)) + SquaredDistance(Init(a), Last(a))
  {
    hide Prod;
    SquaredDistanceExpands(Init(a), Last(a));
    GrowOne(Dot(Init(a), Init(a)), Sum(Init(a)), |Init(a)| as real, Last(a));
    assert |a| as real == |Init(a)| as real + 1.0;
  }

  lemma GrowOne(q: real, s: real, n: real, y: real)
    ensures Prod(n + 1.0, q + Prod(y, y)) - Prod(s + y, s + y) == (Prod(n, q) - Prod(s, s)) + Expanded(q, s, n, y)
  {
    assert (s + y) * (s + y) == s * s + 2.0 * (y * s) + y * y;
    assert (n + 1.0) * (q + y * y) == n * q + n * (y * y) + q + y * y;
  }

  /** The denominators of the coefficient are never negative, and zero exactly for constant returns. */
  lemma {:induction false} VariationSign(a: seq<real>)
    ensures Covariation(a, a) >= 0.0
    ensures Covariation(a, a) == 0.0 <==> Constant(a)
  {
    if a == [] {
    } else {
      hide Prod;
      VariationSign(Init(a));
      VariationGrows(a);
      SquaredDistanceSign(Init(a), Last(a));
      ConstantSplits(a);
    }
  }

  lemma ConstantSplits(a: seq<real>)
    requires a != []
    ensures Constant(a) <==> Constant(Init(a)) && forall i :: 0 <= i < |Init(a)| ==> Init(a)[i] == Last(a)
  {
    assert forall i :: 0 <= i < |Init(a)| ==> Init(a)[i] == a[i];
  }

  // ---------- Cauchy-Schwarz ----------

  /** The residual of a after t times b is taken out. */
  function Residual(a: seq<real>, b: seq<real>, t: real): (r: seq<real>)
    requires |a| == |b|
    ensures |r| == |a| && forall i :: 0 <= i < |a| ==> r[i] == a[i] - Prod(t, b[i])
  {
    seq(|a|, i requires 0 <= i < |a| => a[i] - Prod(t, b[i]))
  }

  lemma ResidualOfInit(a: seq<real>, b: seq<real>, t: real)
    requires |a| == |b| && a != []
    ensures Init(Residual(a, b, t)) == Residual(Init(a), Init(b), t)
    ensures Last(Residual(a, b, t)) == Last(a) - Prod(t, Last(b))
  {
    hide Prod;
    forall i | 0 <= i < |a| - 1
      ensures Init(Residual(a, b, t))[i] == Residual(Init(a), Init(b), t)[i]
    {
      assert Init(a)[i] == a[i] && Init(b)[i] == b[i];
    }
  }

  /** p - 2tn + t^2 q. */
  function Quadratic(p: real, n: real, q: real, t: real): real {
    p - 2.0 * Prod(t, n) + Prod(Square(t), q)
  }

  lemma {:induction false} ResidualSums(a: seq<real>, b: seq<real>, t: real)
    requires |a| == |b|
    ensures var r := Residual(a, b, t);
      Sum(r) == Sum(a) - Prod(t, Sum(b)) && Dot(r, r) == Quadratic(Dot(a, a), Dot(a, b), Dot(b, b), t)
  {
    hide Prod;
    var r := Residual(a, b, t);
    if a == [] {
      QuadraticOfNothing(t);
    } else {
      ResidualOfInit(a, b, t);
      ResidualSums(Init(a), Init(b), t);
      ResidualSumStep(Sum(Init(b)), Last(b), t);
      ResidualDotStep(Dot(Init(a), Init(a)), Dot(Init(a), Init(b)), Dot(Init(b), Init(b)), Last(a), Last(b), t);
    }
  }

  lemma QuadraticOfNothing(t: real)
    ensures Prod(t, 0.0) == 0.0 && Quadratic(0.0, 0.0, 0.0, t) == 0.0
  {
  }

  lemma ResidualSumStep(z: real, y: real, t: real)
    ensures Prod(t, z + y) == Prod(t, z) + Prod(t, y)
  {
  }

  lemma ResidualSquare(x: real, y: real, t: real)
    ensures Square(x - Prod(t, y)) == Quadratic(Square(x), Prod(x, y), Square(y), t)
  {
    var z := t * y;
    assert (x - z) * (x - z) == x * x - 2.0 * (x * z) + z * z;
    assert x * z == t * (x * y);
    assert z * z == t * t * (y * y);
  }

  lemma ResidualDotStep(p: real, q: real, r: real, x: real, y: real, t: real)
    ensures Quadratic(p, q, r, t) + Square(x - Prod(t, y)) == Quadratic(p + Square(x), q + Prod(x, y), r + Square(y), t)
  {
    ResidualSquare(x, y, t);
    assert t * (q + x * y) == t * q + t * (x * y);
    assert t * t * (r + y * y) == t * t * r + t * t * (y * y);
  }

  lemma ResidualVariation(a: seq<real>, b: seq<real>, t: real)
    requires |a| == |b|
    ensures Covariation(Residual(a, b, t), Residual(a, b, t))
      == Quadratic(Covariation(a, a), Covariation(a, b), Covariation(b, b), t)
  {
    hide Prod;
    ResidualSums(a, b, t);
    VariationExpands(|a| as real, Dot(a, a), Dot(a, b), Dot(b, b), Sum(a), Sum(b), t);
  }

  lemma VariationExpands(n: real, p: real, q: real, r: real, x: real, y: real, t: real)
    ensures Prod(n, Quadratic(p, q, r, t)) - Prod(x - Prod(t, y), x - Prod(t, y))
         == Quadratic(Prod(n, p) - Prod(x, x), Prod(n, q) - Prod(x, y), Prod(n, r) - Prod(y, y), t)
  {
    ResidualSquare(x, y, t);
    ScaledQuadratic(n, p, q, r, t);
    assert t * (n * q - x * y) == t * (n * q) - t * (x * y);
    assert t * t * (n * r - y * y) == t * t * (n * r) - t * t * (y * y);
  }

  lemma ScaledQuadratic(n: real, p: real, q: real, r: real, t: real)
    ensures Prod(n, Quadratic(p, q, r, t)) == Quadratic(Prod(n, p), Prod(n, q), Prod(n, r), t)
  {
    assert n * (p - 2.0 * (t * q) + t * t * r) == n * p - n * (2.0 * (t * q)) + n * (t * t * r);
    assert n * (2.0 * (t * q)) == 2.0 * (t * (n * q));
    assert n * (t * t * r) == t * t * (n * r);
  }

  /** Two series move together exactly: the first is an affine function of the second. */
  ghost predicate Affine(a: seq<real>, b: seq<real>)
    requires |a| == |b|
  {
    exists t: real :: Constant(Residual(a, b, t))
  }

  /** numerator^2 <= denomA * denomB, so the clamp can only absorb rounding; and the bound is reached,
      for a second series that varies, exactly when the first is an affine function of it. */
  lemma CauchySchwarz(a: seq<real>, b: seq<real>)
    requires |a| == |b|
    ensures Square(Covariation(a, b)) <= Prod(Covariation(a, a), Covariation(b, b))
    ensures !Constant(b) ==>
      (Square(Covariation(a, b)) == Prod(Covariation(a, a), Covariation(b, b)) <==> Affine(a, b))
  {
    hide Prod;
    hide Covariation;
    var n, p, q := Covariation(a, b), Covariation(a, a), Covariation(b, b);
    VariationSign(b);
    if q > 0.0 {
      var t := n / q;
      ResidualVariation(a, b, t);
      VariationSign(Residual(a, b, t));
      Discriminant(n, p, q, t);
      if Affine(a, b) {
        var u :| Constant(Residual(a, b, u));
        ResidualVariation(a, b, u);
        VariationSign(Residual(a, b, u));
        ZeroAtAnySlope(n, p, q, u);
      }
    } else {
      ConstantCovariesWithNothing(a, b);
      VariationSign(a);
      ZeroProducts(p);
    }
  }

  lemma ZeroProducts(p: real)
    ensures Square(0.0) == 0.0 && Prod(p, 0.0) == 0.0
  {
  }

  lemma Discriminant(n: real, p: real, q: real, t: real)
    requires q > 0.0 && t == n / q && Quadratic(p, n, q, t) >= 0.0
    ensures Square(n) <= Prod(p, q)
    ensures Quadratic(p, n, q, t) == 0.0 <==> Square(n) == Prod(p, q)
  {
    assert t * q == n;
    assert t * t * q == t * n by { assert t * t * q == t * (t * q); }
    var v := Quadratic(p, n, q, t);
    assert v == p - t * n;
    assert v * q == p * q - n * n by { assert t * n * q == (t * q) * n; }
    ScaledSign(v, q);
  }

  lemma ScaledSign(v: real, q: real)
    requires v >= 0.0 && q > 0.0
    ensures v * q >= 0.0 && (v * q == 0.0 <==> v == 0.0)
  {
    if v > 0.0 {
      ProdIsPositive(v, q);
    }
  }

  lemma ZeroAtAnySlope(n: real, p: real, q: real, u: real)
    requires Quadratic(p, n, q, u) == 0.0 && Square(n) <= Prod(p, q)
    ensures Square(n) == Prod(p, q)
  {
    var w := u * q - n;
    assert w * w == u * u * q * q - 2.0 * (u * n) * q + n * n;
    assert (p - 2.0 * (u * n) + u * u * q) * q == p * q - 2.0 * (u * n) * q + u * u * q * q;
    SquareSign(w);
  }

  /** A series without variation has no covariation with any other. */
  lemma ConstantCovariesWithNothing(a: seq<real>, b: seq<real>)
    requires |a| == |b| && Constant(b)
    ensures Covariation(a, b) == 0.0
  {
    if a != [] {
      hide Prod;
      DotWithConstant(a, b, b[0]);
      Reorder(|a| as real, b[0], Sum(a));
    }
  }

  lemma Reorder(n: real, c: real, s: real)
    ensures Prod(n, Prod(c, s)) == Prod(s, Prod(n, c))
  {
  }

  lemma {:induction false} DotWithConstant(a: seq<real>, b: seq<real>, c: real)
    requires |a| == |b| && forall i :: 0 <= i < |b| ==> b[i] == c
    ensures Dot(a, b) == Prod(c, Sum(a)) && Sum(b) == Prod(|b| as real, c)
  {
    hide Prod;
    if a == [] {
      NothingTimes(c);
    } else {
      DotWithConstant(Init(a), Init(b), c);
      assert |b| as real == |Init(b)| as real + 1.0;
      TimesConstant(c, Sum(Init(a)), Last(a), |Init(b)| as real);
    }
  }

  lemma NothingTimes(c: real)
    ensures Prod(c, 0.0) == 0.0 && Prod(0.0, c) == 0.0
  {
  }

  lemma TimesConstant(c: real, s: real, x: real, n: real)
    ensures Prod(c, s + x) == Prod(c, s) + Prod(x, c) && Prod(n + 1.0, c) == Prod(n, c) + c
  {
  }

  // ---------- The coefficient ----------

  ghost predicate ExactRoot(root: real -> real) {
    forall x: real :: x >= 0.0 ==> root(x) >= 0.0 && Square(root(x)) == x
  }

  function Zeros(prices: seq<real>): nat {
    if prices == [] then 0 else Zeros(Init(prices)) + if Last(prices) == 0.0 then 1 else 0
  }

  /** The zero prices that start a period. */
  function ZerosBeforeLast(prices: seq<real>): nat {
    if prices == [] then 0 else Zeros(Init(prices))
  }

  lemma {:induction false} ReturnsCount(prices: seq<real>)
    requires prices != []
    ensures |Returns(prices)| == |prices| - 1 - ZerosBeforeLast(prices)
  {
    if |prices| >= 2 {
      ReturnsCount(Init(prices));
      assert Last(Init(prices)) == prices[|prices| - 2];
    }
  }

  lemma {:induction false} DotIsSymmetric(a: seq<real>, b: seq<real>)
    requires |a| == |b|
    ensures Dot(a, b) == Dot(b, a)
  {
    hide Prod;
    if a != [] {
      DotIsSymmetric(Init(a), Init(b));
      Commute(Last(a), Last(b));
    }
  }

  lemma Commute(x: real, y: real)
    ensures Prod(x, y) == Prod(y, x)
  {
  }

  /** For equally long series the coefficient comes from the covariation and the two variations. */
  lemma EqualLengthCoefficient(a: seq<real>, b: seq<real>, root: real -> real)
    requires |a| == |b|
    ensures Coefficient(a, b, root) == FromSums(|a|, Covariation(a, b), Covariation(a, a), Covariation(b, b), root)
  {
    hide Prod;
    hide FromSums;
    assert a[..|a|] == a && b[..|b|] == b;
  }

  /** The coefficient of equally long series does not depend on their order, whatever the square root does. */
  lemma CoefficientIsSymmetric(a: seq<real>, b: seq<real>, root: real -> real)
    requires |a| == |b|
    ensures Coefficient(a, b, root) == Coefficient(b, a, root)
  {
    hide Prod;
    hide Coefficient;
    EqualLengthCoefficient(a, b, root);
    EqualLengthCoefficient(b, a, root);
    DotIsSymmetric(a, b);
    Commute(Sum(a), Sum(b));
    Commute(Covariation(a, a), Covariation(b, b));
  }

  /** Symmetric for series of one length with equally many zero prices before the last one, errors included. */
  lemma PearsonIsSymmetric(a: seq<real>, b: seq<real>, root: real -> real)
    requires |a| == |b| && ZerosBeforeLast(a) == ZerosBeforeLast(b)
    ensures Pearson(a, b, root) == Pearson(b, a, root)
  {
    hide Coefficient;
    if |a| >= 2 {
      ReturnsCount(a);
      ReturnsCount(b);
      CoefficientIsSymmetric(Returns(a), Returns(b), root);
    }
  }

  /** With n prices, z of them zero and not the last, this many returns remain. */
  function ReturnsLeft(n: nat, z: nat): nat
    requires z < n
  {
    n - 1 - z
  }

  /** The order does not count for any series of length n with za and zb zero prices before the last one. */
  ghost predicate PearsonSymmetricFor(n: nat, za: nat, zb: nat, root: real -> real) {
    forall a, b :: |a| == |b| == n && ZerosBeforeLast(a) == za && ZerosBeforeLast(b) == zb
                   ==> Pearson(a, b, root) == Pearson(b, a, root)
  }

  /** When the order counts: Pearson is symmetric for all series of length n with za and zb zero prices before the
      last one exactly when these are equally many, or leave fewer than two returns on both sides, or none on one. */
  lemma PearsonIsSymmetricIff(n: nat, za: nat, zb: nat, root: real -> real)
    requires za < n && zb < n && ExactRoot(root)
    ensures PearsonSymmetricFor(n, za, zb, root) <==>
      za == zb || (ReturnsLeft(n, za) < 2 && ReturnsLeft(n, zb) < 2)
      || ReturnsLeft(n, za) == 0 || ReturnsLeft(n, zb) == 0
  {
    hide Pearson;
    hide ZerosBeforeLast;
    var k, m := ReturnsLeft(n, zb), ReturnsLeft(n, za);
    if za == zb || (m < 2 && k < 2) || m == 0 || k == 0 {
      forall a, b | |a| == |b| == n && ZerosBeforeLast(a) == za && ZerosBeforeLast(b) == zb
        ensures Pearson(a, b, root) == Pearson(b, a, root)
      {
        ReturnsCount(a);
        ReturnsCount(b);
        if za == zb {
          PearsonIsSymmetric(a, b, root);
        } else {
          FewReturnsAreSymmetric(a, b, root);
        }
      }
    } else if k < m {
      AsymmetricPair(za, zb, k, m, root);
    } else {
      AsymmetricPair(zb, za, m, k, root);
    }
  }

  lemma FewReturnsAreSymmetric(a: seq<real>, b: seq<real>, root: real -> real)
    requires |a| == |b|
    requires var m, k := |Returns(a)|, |Returns(b)|; (m < 2 && k < 2) || m == 0 || k == 0
    ensures Pearson(a, b, root) == Pearson(b, a, root)
  {
    var x, y := Returns(a), Returns(b);
    if x == [] || y == [] {
      NothingToCorrelate(x, y, root);
    }
  }

  lemma NothingToCorrelate(x: seq<real>, y: seq<real>, root: real -> real)
    requires x == [] || y == []
    ensures Coefficient(x, y, root) == 0.0 && Coefficient(y, x, root) == 0.0
  {
    hide Prod;
    NothingTimes(|x| as real);
    NothingTimes(|y| as real);
    NothingTimes(0.0);
  }

  // The asymmetric pair: returns of k zeros then ones against k ones.

  /** m rates, zero before position k and one from there on. */
  function Rates(k: nat, m: nat): (rates: seq<real>)
    ensures |rates| == m
  {
    if m == 0 then [] else Rates(k, m - 1) + [if m - 1 < k then 0.0 else 1.0]
  }

  /** z zero prices and then prices with these rates as returns. */
  function Prices(z: nat, k: nat, m: nat): (prices: seq<real>)
    ensures |prices| == z + m + 1 && Last(prices) > 0.0
  {
    if m == 0 then seq(z, _ => 0.0) + [1.0]
    else
      var before := Prices(z, k, m - 1);
      before + [if m - 1 < k then Last(before) else 2.0 * Last(before)]
  }

  lemma {:induction false} ZerosOfPad(z: nat)
    ensures Zeros(seq(z, _ => 0.0)) == z && Returns(seq(z, _ => 0.0)) == [] && Returns(seq(z, _ => 0.0) + [1.0]) == []
  {
    var pad := seq(z, _ => 0.0);
    if z > 0 {
      ZerosOfPad(z - 1);
      assert Init(pad) == seq(z - 1, _ => 0.0);
      assert Init(pad + [1.0]) == pad;
    } else {
      assert pad == [];
    }
  }

  lemma {:induction false} ReturnsOfPrices(z: nat, k: nat, m: nat)
    ensures Returns(Prices(z, k, m)) == Rates(k, m) && Zeros(Prices(z, k, m)) == z
      && ZerosBeforeLast(Prices(z, k, m)) == z
  {
    if m == 0 {
      ZerosOfPad(z);
      assert Init(seq(z, _ => 0.0) + [1.0]) == seq(z, _ => 0.0);
    } else {
      hide Returns;
      hide Zeros;
      hide ZerosBeforeLast;
      ReturnsOfPrices(z, k, m - 1);
      var before := Prices(z, k, m - 1);
      RateOf(Last(before));
      if m - 1 < k {
        NextPrice(before, Last(before), 0.0);
      } else {
        NextPrice(before, 2.0 * Last(before), 1.0);
      }
    }
  }

  lemma NextPrice(prices: seq<real>, price: real, rate: real)
    requires prices != [] && Last(prices) != 0.0 && (price - Last(prices)) / Last(prices) == rate
    ensures Returns(prices + [price]) == Returns(prices) + [rate]
    ensures Zeros(prices + [price]) == Zeros(prices) + (if price == 0.0 then 1 else 0)
      && ZerosBeforeLast(prices + [price]) == Zeros(prices)
  {
    var all := prices + [price];
    assert Init(all) == prices && all[|all| - 2] == Last(prices);
  }

  lemma RateOf(x: real)
    requires x > 0.0
    ensures (x - x) / x == 0.0 && (2.0 * x - x) / x == 1.0
  {
    SelfRatio(x);
  }

  lemma {:induction false} SumsOfRates(k: nat, m: nat)
    ensures Sum(Rates(k, m)) == Max(m - k, 0) as real && Dot(Rates(k, m), Rates(k, m)) == Max(m - k, 0) as real
    ensures k <= m ==> Rates(k, m)[..k] == Rates(k, k)
  {
    if m > 0 {
      SumsOfRates(k, m - 1);
      assert Init(Rates(k, m)) == Rates(k, m - 1);
      assert Prod(0.0, 0.0) == 0.0 && Prod(1.0, 1.0) == 1.0;
    }
  }

  lemma {:induction false} ZeroRatesDot(k: nat, m: nat, b: seq<real>)
    requires m <= k && |b| == m
    ensures Dot(Rates(k, m), b) == 0.0
  {
    if m > 0 {
      ZeroRatesDot(k, m - 1, Init(b));
      assert Init(Rates(k, m)) == Rates(k, m - 1);
      assert Prod(0.0, Last(b)) == 0.0;
    }
  }

  lemma CoefficientsOfRates(k: nat, m: nat, root: real -> real)
    requires 1 <= k < m && ExactRoot(root)
    ensures Coefficient(Rates(k, m), Rates(0, k), root) == -1.0
    ensures Coefficient(Rates(0, k), Rates(k, m), root) == 0.0
  {
    hide Prod;
    hide FromSums;
    hide Coefficient;
    var a, b, x, y := Rates(k, m), Rates(0, k), k as real, m as real;
    SumsOfRates(k, m);
    SumsOfRates(0, k);
    ZeroRatesDot(k, k, b);
    DotIsSymmetric(Rates(k, k), b);
    assert b[..k] == b && Max(m - k, 0) as real == y - x;
    CoefficientBySums(a, b, root, 0.0, y - x, x, y - x, x);
    CoefficientBySums(b, a, root, 0.0, x, y - x, x, y - x);
    hide Rates;
    hide Sum;
    hide Dot;
    hide Max;
    RateProducts(x, y);
    ProdIsPositive(x, y - x);
    MinusOne(Prod(x, y - x), m, root);
    NoVariation(k, Prod(x, 0.0) - Prod(x, y - x), Prod(x, y - x) - Square(y - x), 0.0, root);
  }

  lemma CoefficientBySums(a: seq<real>, b: seq<real>, root: real -> real, dot: real, sumA: real, sumB: real,
                          squaresA: real, squaresB: real)
    requires var m := Min(|a|, |b|); Dot(a[..m], b[..m]) == dot
    requires Sum(a) == sumA && Sum(b) == sumB && Dot(a, a) == squaresA && Dot(b, b) == squaresB
    ensures var n := |a| as real;
      Coefficient(a, b, root)
      == FromSums(|a|, Prod(n, dot) - Prod(sumA, sumB), Prod(n, squaresA) - Square(sumA),
                  Prod(n, squaresB) - Square(sumB), root)
  {
    hide Prod;
    hide FromSums;
    hide Sum;
    hide Dot;
  }

  lemma NoVariation(n: nat, numerator: real, denomB: real, denomA: real, root: real -> real)
    requires denomA == 0.0
    ensures FromSums(n, numerator, denomA, denomB, root) == 0.0
  {
  }

  lemma RateProducts(x: real, y: real)
    ensures Prod(y, 0.0) - Prod(y - x, x) == -Prod(x, y - x)
    ensures Prod(y, y - x) - Square(y - x) == Prod(x, y - x)
    ensures Prod(y, x) - Square(x) == Prod(x, y - x) && Prod(x, x) - Square(x) == 0.0
    ensures Prod(x, 0.0) == 0.0
  {
    assert y * (y - x) == y * y - y * x && (y - x) * (y - x) == y * y - 2.0 * (y * x) + x * x
      && x * (y - x) == x * y - x * x;
  }

  lemma MinusOne(v: real, n: nat, root: real -> real)
    requires v > 0.0 && n >= 2 && ExactRoot(root)
    ensures FromSums(n, -v, v, v, root) == -1.0
  {
    hide Prod;
    SquareSign(v);
    SameRoot(root(Prod(v, v)), v);
    NegatedRatio(v);
    assert Quantize(-1.0) == -1.0;
  }

  lemma NegatedRatio(v: real)
    requires v != 0.0
    ensures -v / v == -1.0
  {
  }

  lemma AsymmetricPair(za: nat, zb: nat, k: nat, m: nat, root: real -> real)
    requires 1 <= k < m && za + m == zb + k && ExactRoot(root)
    ensures var a, b := Prices(za, k, m), Prices(zb, 0, k);
      |a| == |b| == za + m + 1 && ZerosBeforeLast(a) == za && ZerosBeforeLast(b) == zb
      && Pearson(a, b, root) == Ok(-1.0) && Pearson(b, a, root) == Ok(0.0)
  {
    ReturnsOfPrices(za, k, m);
    ReturnsOfPrices(zb, 0, k);
    CoefficientsOfRates(k, m, root);
    hide Coefficient;
    hide Prices;
  }

  /** Every coefficient lies in [-1, 1], whatever the square root returns. */
  lemma CoefficientIsBounded(a: seq<real>, b: seq<real>, root: real -> real)
    ensures -1.0 <= Coefficient(a, b, root) <= 1.0
  {
    hide Prod;
  }

  predicate IsTenThousandths(x: real, k: int) {
    x == k as real / 10000.0
  }

  /** Rounded to the nearest fourth decimal, a half away from zero. */
  lemma QuantizeIsNearest(x: real)
    ensures exists k: int :: IsTenThousandths(Quantize(x), k)
    ensures x >= 0.0 ==> -0.00005 < Quantize(x) - x <= 0.00005
    ensures x <= 0.0 ==> -0.00005 <= Quantize(x) - x < 0.00005
  {
    if x >= 0.0 {
      assert IsTenThousandths(Quantize(x), (x * 10000.0 + 0.5).Floor);
    } else {
      assert IsTenThousandths(Quantize(x), -((-x * 10000.0 + 0.5).Floor));
    }
  }

  /** For series of one length whose returns vary the coefficient is the covariation over the root of the two
      variations, to the fourth decimal. */
  lemma CoefficientIsTheRatio(a: seq<real>, b: seq<real>, root: real -> real)
    requires |a| == |b| && ExactRoot(root) && !Constant(a) && !Constant(b)
    ensures root(Prod(Covariation(a, a), Covariation(b, b))) > 0.0
    ensures var ratio := Covariation(a, b) / root(Prod(Covariation(a, a), Covariation(b, b)));
      -0.00005 <= Coefficient(a, b, root) - ratio <= 0.00005
  {
    ClampOnlyAbsorbsRounding(a, b, root);
    EqualLengthCoefficient(a, b, root);
    VariationSign(a);
    VariationSign(b);
    QuantizeIsNearest(Covariation(a, b) / root(Prod(Covariation(a, a), Covariation(b, b))));
    hide Covariation;
    hide Coefficient;
    hide Quantize;
    hide Prod;
  }

  /** With an exact square root nothing is clamped. */
  lemma ClampOnlyAbsorbsRounding(a: seq<real>, b: seq<real>, root: real -> real)
    requires |a| == |b| && ExactRoot(root) && !Constant(a) && !Constant(b)
    ensures var denom := root(Prod(Covariation(a, a), Covariation(b, b)));
      denom > 0.0 && Clamp(Covariation(a, b) / denom) == Covariation(a, b) / denom
  {
    hide Covariation;
    VariationSign(a);
    VariationSign(b);
    CauchySchwarz(a, b);
    ProdIsPositive(Covariation(a, a), Covariation(b, b));
    var r := root(Prod(Covariation(a, a), Covariation(b, b)));
    SquareSign(r);
    RatioOfSquares(Covariation(a, b), r);
  }

  lemma RatioOfSquares(n: real, r: real)
    requires r > 0.0 && Square(n) <= Square(r)
    ensures -1.0 <= n / r <= 1.0
  {
    SquaresGrow(r, n);
    SquaresGrow(r, -n);
    assert (-n) * (-n) == n * n;
    assert -r <= n <= r;
  }

  lemma SquaresGrow(x: real, y: real)
    requires x >= 0.0
    ensures x < y ==> Square(x) < Square(y)
  {
    if x < y {
      ProdIsPositive(y - x, y + x);
      assert (y - x) * (y + x) == y * y - x * x;
    }
  }

  /** The hard-wired diagonal of the matrix is what the coefficient gives, unless the returns are constant - as
      they are with fewer than two. */
  lemma SelfCorrelationIsOneIffReturnsVary(a: seq<real>, root: real -> real)
    requires ExactRoot(root)
    ensures Pearson(a, a, root) == if |a| < 2 then Err(TooFewPoints) else Ok(if Constant(Returns(a)) then 0.0 else 1.0)
  {
    hide Covariation;
    hide Coefficient;
    var r := Returns(a);
    VariationSign(r);
    EqualLengthCoefficient(r, r, root);
    if !Constant(r) {
      RatioIsOne(Covariation(r, r), |r|, root);
    }
  }

  lemma RatioIsOne(v: real, n: nat, root: real -> real)
    requires v > 0.0 && n >= 2 && ExactRoot(root)
    ensures FromSums(n, v, v, v, root) == 1.0
  {
    hide Prod;
    SquareSign(v);
    SameRoot(root(Prod(v, v)), v);
    SelfRatio(v);
    assert Quantize(1.0) == 1.0;
  }

  lemma SelfRatio(x: real)
    requires x != 0.0
    ensures x / x == 1.0
  {
  }

  lemma SameRoot(x: real, y: real)
    requires x >= 0.0 && y >= 0.0 && Square(x) == Square(y)
    ensures x == y
  {
    hide Prod;
    SquaresGrow(x, y);
    SquaresGrow(y, x);
  }

  function Scale(prices: seq<real>, k: real): (r: seq<real>)
    ensures |r| == |prices| && forall i :: 0 <= i < |prices| ==> r[i] == k * prices[i]
  {
    seq(|prices|, i requires 0 <= i < |prices| => k * prices[i])
  }

  /** Quoting one series in another unit changes nothing. */
  lemma ScaleOfInit(prices: seq<real>, k: real)
    requires prices != []
    ensures Init(Scale(prices, k)) == Scale(Init(prices), k)
  {
    forall i | 0 <= i < |prices| - 1
      ensures Init(Scale(prices, k))[i] == Scale(Init(prices), k)[i]
    {
      assert Init(prices)[i] == prices[i];
    }
  }

  lemma {:induction false} ReturnsIgnoreTheUnit(prices: seq<real>, k: real)
    requires k != 0.0
    ensures Returns(Scale(prices, k)) == Returns(prices)
  {
    if |prices| >= 2 {
      ScaleOfInit(prices, k);
      ReturnsIgnoreTheUnit(Init(prices), k);
      var prev, price := prices[|prices| - 2], Last(prices);
      CancelUnit(price, prev, k, Last(Scale(prices, k)), Scale(prices, k)[|prices| - 2]);
    }
  }

  lemma CancelUnit(x: real, y: real, k: real, kx: real, ky: real)
    requires k != 0.0 && kx == k * x && ky == k * y
    ensures ky == 0.0 <==> y == 0.0
    ensures y != 0.0 ==> (kx - ky) / ky == (x - y) / y
  {
    if ky == 0.0 {
      assert y == ky / k;
    } else {
      var q := (x - y) / y;
      assert x - y == q * y;
      assert kx - ky == k * (x - y) && k * (q * y) == q * ky;
    }
  }

  // ---------- The matrix ----------

  type Matrix = map<string, map<string, real>>

  /** The value computed afresh for (a, b). */
  function Direct(series: map<string, seq<real>>, a: string, b: string,
                  root: real -> real): Result<real, CorrelationError>
    requires a in series && b in series
  {
    if a == b then Ok(1.0) else Pearson(series[a], series[b], root)
  }

  predicate AreKeys(symbols: seq<string>, series: map<string, seq<real>>) {
    (forall i :: 0 <= i < |symbols| ==> symbols[i] in series)
    && (forall s :: s in series ==> s in symbols)
    && (forall i, j :: 0 <= i < j < |symbols| ==> symbols[i] != symbols[j])
  }

  /** The value of the pair (i, j), computed in the order in which the two symbols appear. */
  function PairValue(symbols: seq<string>, series: map<string, seq<real>>, root: real -> real, i: nat,
                     j: nat): Result<real, CorrelationError>
    requires i < |symbols| && j < |symbols| && AreKeys(symbols, series)
  {
    if i <= j then Direct(series, symbols[i], symbols[j], root) else Direct(series, symbols[j], symbols[i], root)
  }

  /** The first n entries of row i are right, and there are no others. */
  ghost predicate RowRight(row: map<string, real>, symbols: seq<string>, series: map<string, seq<real>>,
                           root: real -> real, i: nat, n: nat)
    requires i < |symbols| && n <= |symbols| && AreKeys(symbols, series)
  {
    forall l :: 0 <= l < n ==> symbols[l] in row && Ok(row[symbols[l]]) == PairValue(symbols, series, root, i, l)
  }

  ghost predicate MatrixRight(m: Matrix, symbols: seq<string>, series: map<string, seq<real>>, root: real -> real,
                              n: nat)
    requires n <= |symbols| && AreKeys(symbols, series)
  {
    (forall k :: 0 <= k < n ==> symbols[k] in m && RowRight(m[symbols[k]], symbols, series, root, k, |symbols|))
    && (forall k :: n <= k < |symbols| ==> symbols[k] !in m)
  }

  /** Fills the matrix as the source does, row by row. */
  method CorrelationMatrix(symbols: seq<string>, series: map<string, seq<real>>, root: real -> real)
    returns (r: Result<Matrix, CorrelationError>)
    requires AreKeys(symbols, series)
    ensures r.Ok? ==> MatrixRight(r.value, symbols, series, root, |symbols|)
    ensures r.Err? ==> exists i, j ::
      0 <= i < j < |symbols| && Direct(series, symbols[i], symbols[j], root) == Err(r.error)
  {
    hide Pearson;
    hide RowRight;
    var matrix: Matrix := map[];
    for i := 0 to |symbols|
      invariant MatrixRight(matrix, symbols, series, root, i)
    {
      var row := MatrixRow(i, matrix, symbols, series, root);
      if row.Err? {
        return Err(row.error);
      }
      matrix := matrix[symbols[i] := row.value];
    }
    r := Ok(matrix);
  }

  /** An entry whose mirror is already in the matrix is copied, not recomputed. */
  method MatrixRow(i: nat, matrix: Matrix, symbols: seq<string>, series: map<string, seq<real>>, root: real -> real)
    returns (r: Result<map<string, real>, CorrelationError>)
    requires AreKeys(symbols, series) && i < |symbols| && MatrixRight(matrix, symbols, series, root, i)
    ensures r.Ok? ==> RowRight(r.value, symbols, series, root, i, |symbols|)
    ensures r.Err? ==> exists j :: i < j < |symbols| && Direct(series, symbols[i], symbols[j], root) == Err(r.error)
  {
    hide Pearson;
    var row: map<string, real> := map[];
    for j := 0 to |symbols|
      invariant RowRight(row, symbols, series, root, i, j)
    {
      var a, b := symbols[i], symbols[j];
      if j < i {
        assert RowRight(matrix[b], symbols, series, root, j, |symbols|);
      }
      var v: real;
      if a == b {
        v := 1.0;
      } else if b in matrix && a in matrix[b] {
        v := matrix[b][a];
      } else {
        var c := Pearson(series[a], series[b], root);
        if c.Err? {
          assert Direct(series, symbols[i], symbols[j], root) == Err(c.error);
          return Err(c.error);
        }
        v := c.value;
      }
      assert Ok(v) == PairValue(symbols, series, root, i, j);
      row := row[b := v];
    }
    r := Ok(row);
  }

  /** The matrix is symmetric with a unit diagonal, whatever the prices. */
  lemma MatrixIsSymmetric(m: Matrix, symbols: seq<string>, series: map<string, seq<real>>, root: real -> real)
    requires AreKeys(symbols, series) && MatrixRight(m, symbols, series, root, |symbols|)
    ensures forall a, b :: a in symbols && b in symbols ==>
      a in m && b in m && b in m[a] && a in m[b] && m[a][b] == m[b][a] && m[a][a] == 1.0
  {
    forall a, b | a in symbols && b in symbols
      ensures a in m && b in m && b in m[a] && a in m[b] && m[a][b] == m[b][a] && m[a][a] == 1.0
    {
      var i :| 0 <= i < |symbols| && symbols[i] == a;
      var j :| 0 <= j < |symbols| && symbols[j] == b;
      assert RowRight(m[symbols[i]], symbols, series, root, i, |symbols|);
      assert RowRight(m[symbols[j]], symbols, series, root, j, |symbols|);
    }
  }

  /** An entry is what a fresh computation would give exactly when it is not a copy, or the order of the pair does
      not count. */
  lemma CachedEntryIsDirectIff(m: Matrix, symbols: seq<string>, series: map<string, seq<real>>, root: real -> real,
                               i: nat, j: nat)
    requires AreKeys(symbols, series) && MatrixRight(m, symbols, series, root, |symbols|) && i < |symbols|
      && j < |symbols|
    ensures var a, b := symbols[i], symbols[j];
      a in m && b in m[a]
      && (Ok(m[a][b]) == Direct(series, a, b, root)
          <==> i <= j || Direct(series, a, b, root) == Direct(series, b, a, root))
  {
    assert RowRight(m[symbols[i]], symbols, series, root, i, |symbols|);
  }

  /** So it is for every pair with equally many zero prices before the last one. */
  lemma CachedEntriesAreDirect(m: Matrix, symbols: seq<string>, series: map<string, seq<real>>, root: real -> real,
                               a: string, b: string)
    requires AreKeys(symbols, series) && MatrixRight(m, symbols, series, root, |symbols|)
    requires a in series && b in series && ZerosBeforeLast(series[a]) == ZerosBeforeLast(series[b])
    ensures a in m && b in m[a] && Ok(m[a][b]) == Direct(series, a, b, root)
  {
    var i :| 0 <= i < |symbols| && symbols[i] == a;
    var j :| 0 <= j < |symbols| && symbols[j] == b;
    CachedEntryIsDirectIff(m, symbols, series, root, i, j);
    if j < i {
      LengthsAgree(m, symbols, series, root, j, i);
      PearsonIsSymmetric(series[a], series[b], root);
    }
  }

  lemma LengthsAgree(m: Matrix, symbols: seq<string>, series: map<string, seq<real>>, root: real -> real, i: nat,
                     j: nat)
    requires AreKeys(symbols, series) && MatrixRight(m, symbols, series, root, |symbols|) && i < j < |symbols|
    ensures |series[symbols[i]]| == |series[symbols[j]]|
  {
    assert RowRight(m[symbols[i]], symbols, series, root, i, |symbols|);
    assert PairValue(symbols, series, root, i, j).Ok?;
  }

  // When a copy can be told from a fresh computation, by counting zero prices alone.

  /** A matrix filled from prices of which symbol i has n with za zeros before the last one, and symbol j n with zb. */
  ghost predicate IsMatrixWithZeros(m: Matrix, series: map<string, seq<real>>, symbols: seq<string>, root: real -> real,
                                    i: nat, j: nat, n: nat, za: nat, zb: nat)
    requires i < |symbols| && j < |symbols|
  {
    AreKeys(symbols, series) && MatrixRight(m, symbols, series, root, |symbols|)
    && HasZeros(series[symbols[i]], n, za) && HasZeros(series[symbols[j]], n, zb)
  }

  predicate HasZeros(prices: seq<real>, n: nat, z: nat) {
    |prices| == n && ZerosBeforeLast(prices) == z
  }

  ghost predicate EntryIsDirect(m: Matrix, series: map<string, seq<real>>, a: string, b: string, root: real -> real) {
    a in series && b in series && a in m && b in m[a] && Ok(m[a][b]) == Direct(series, a, b, root)
  }

  function IndexOf(symbols: seq<string>, s: string): (i: nat)
    requires s in symbols
    ensures i < |symbols| && symbols[i] == s
  {
    if symbols[0] == s then 0 else 1 + IndexOf(symbols[1..], s)
  }

  /** All pairs at once, in the order in which their symbols appear. */
  function FullMatrix(symbols: seq<string>, series: map<string, seq<real>>, root: real -> real): Matrix
    requires AreKeys(symbols, series)
    requires forall i, j :: 0 <= i < |symbols| && 0 <= j < |symbols| ==> PairValue(symbols, series, root, i, j).Ok?
  {
    map s | s in symbols :: map t | t in symbols ::
      PairValue(symbols, series, root, IndexOf(symbols, s), IndexOf(symbols, t)).value
  }

  lemma FullMatrixIsRight(symbols: seq<string>, series: map<string, seq<real>>, root: real -> real)
    requires AreKeys(symbols, series)
    requires forall i, j :: 0 <= i < |symbols| && 0 <= j < |symbols| ==> PairValue(symbols, series, root, i, j).Ok?
    ensures MatrixRight(FullMatrix(symbols, series, root), symbols, series, root, |symbols|)
  {
    hide PairValue;
    var m := FullMatrix(symbols, series, root);
    forall k | 0 <= k < |symbols|
      ensures symbols[k] in m && RowRight(m[symbols[k]], symbols, series, root, k, |symbols|)
    {
      assert IndexOf(symbols, symbols[k]) == k;
      forall l | 0 <= l < |symbols|
        ensures symbols[l] in m[symbols[k]] && Ok(m[symbols[k]][symbols[l]]) == PairValue(symbols, series, root, k, l)
      {
        assert IndexOf(symbols, symbols[l]) == l;
      }
    }
  }

  /** Prices a for symbol i and b for all others. */
  function TwoSeries(symbols: seq<string>, i: nat, a: seq<real>, b: seq<real>): map<string, seq<real>>
    requires i < |symbols|
  {
    map s | s in symbols :: if s == symbols[i] then a else b
  }

  lemma AsymmetryShows(symbols: seq<string>, i: nat, j: nat, a: seq<real>, b: seq<real>, root: real -> real)
    requires j < i < |symbols| && (forall k, l :: 0 <= k < l < |symbols| ==> symbols[k] != symbols[l])
    requires |a| == |b| && Pearson(a, b, root) != Pearson(b, a, root)
    ensures var series := TwoSeries(symbols, i, a, b);
      AreKeys(symbols, series)
      && exists m ::
           MatrixRight(m, symbols, series, root, |symbols|) && !EntryIsDirect(m, series, symbols[i], symbols[j], root)
  {
    hide Coefficient;
    var series := TwoSeries(symbols, i, a, b);
    assert forall k, l :: 0 <= k < |symbols| && 0 <= l < |symbols| ==> PairValue(symbols, series, root, k, l).Ok?;
    FullMatrixIsRight(symbols, series, root);
    hide FullMatrix;
    CachedEntryIsDirectIff(FullMatrix(symbols, series, root), symbols, series, root, i, j);
  }

  ghost predicate CopiesAreDirect(symbols: seq<string>, root: real -> real, i: nat, j: nat, n: nat, za: nat, zb: nat)
    requires i < |symbols| && j < |symbols|
  {
    forall m, series :: IsMatrixWithZeros(m, series, symbols, root, i, j, n, za, zb)
                        ==> EntryIsDirect(m, series, symbols[i], symbols[j], root)
  }

  lemma CopiesFollowPearson(symbols: seq<string>, i: nat, j: nat, n: nat, za: nat, zb: nat, root: real -> real)
    requires j < i < |symbols| && (forall k, l :: 0 <= k < l < |symbols| ==> symbols[k] != symbols[l])
    ensures CopiesAreDirect(symbols, root, i, j, n, za, zb) <==>
      PearsonSymmetricFor(n, za, zb, root)
  {
    hide Pearson;
    hide ZerosBeforeLast;
    if PearsonSymmetricFor(n, za, zb, root) {
      forall m, series | IsMatrixWithZeros(m, series, symbols, root, i, j, n, za, zb)
        ensures EntryIsDirect(m, series, symbols[i], symbols[j], root)
      {
        CachedEntryIsDirectIff(m, symbols, series, root, i, j);
      }
    } else {
      var a, b :| |a| == |b| == n && ZerosBeforeLast(a) == za && ZerosBeforeLast(b) == zb
        && Pearson(a, b, root) != Pearson(b, a, root);
      AsymmetryShows(symbols, i, j, a, b, root);
      var series := TwoSeries(symbols, i, a, b);
      var m :| MatrixRight(m, symbols, series, root, |symbols|)
        && !EntryIsDirect(m, series, symbols[i], symbols[j], root);
      assert IsMatrixWithZeros(m, series, symbols, root, i, j, n, za, zb) by {
        hide EntryIsDirect;
        hide MatrixRight;
      }
    }
  }

  /** A copied entry equals a fresh computation, whatever the prices with these numbers of zeros, exactly when the
      numbers are equal, or leave fewer than two returns on both sides, or none on one. */
  lemma CopiesAreDirectIff(symbols: seq<string>, i: nat, j: nat, n: nat, za: nat, zb: nat, root: real -> real)
    requires j < i < |symbols| && (forall k, l :: 0 <= k < l < |symbols| ==> symbols[k] != symbols[l])
    requires za < n && zb < n && ExactRoot(root)
    ensures CopiesAreDirect(symbols, root, i, j, n, za, zb) <==>
      za == zb || (ReturnsLeft(n, za) < 2 && ReturnsLeft(n, zb) < 2)
      || ReturnsLeft(n, za) == 0 || ReturnsLeft(n, zb) == 0
  {
    PearsonIsSymmetricIff(n, za, zb, root);
    CopiesFollowPearson(symbols, i, j, n, za, zb, root);
    hide CopiesAreDirect;
    hide Pearson;
    hide ZerosBeforeLast;
  }
}
