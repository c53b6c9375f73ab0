/** Option and the few sequence helpers that several modules share. */
module Common {

  datatype Option<+T> = None | Some(value: T)

  datatype Result<+T, +E> = Ok(value: T) | Err(error: E)

  function Last<T>(s: seq<T>): (r: T)
    requires |s| > 0
  {
    s[|s| - 1]
  }

  function Init<T>(s: seq<T>): (r: seq<T>)
    requires |s| > 0
  {
    s[..|s| - 1]
  }

  function Max(a: int, b: int): (r: int) {
    if a > b then a else b
  }

  function Min(a: int, b: int): (r: int) {
    if a < b then a else b
  }

  function Larger(a: real, b: real): real {
    if a > b then a else b
  }

  function Smaller(a: real, b: real): real {
    if a < b then a else b
  }

  /** A named product: hiding its definition keeps a proof free of nonlinear arithmetic. */
  function Prod(x: real, y: real): real {
    x * y
  }

  lemma PositiveProduct(x: real, y: real)
    requires x > 0.0 && y > 0.0
    ensures x * y > 0.0
  {
  }

  lemma OrderTimes(x: real, y: real, u: real)
    requires u > 0.0
    ensures x * u >= y * u <==> x >= y
  {
    var d := x - y;
    assert x * u - y * u == d * u;
    if d < 0.0 {
      PositiveProduct(-d, u);
    } else if d > 0.0 {
      PositiveProduct(d, u);
    }
  }

  lemma QuotientAtLeast(x: real, y: real, r: real)
    requires y > 0.0
    ensures x / y >= r <==> x >= r * y
  {
    var q := x / y;
    assert x == q * y;
    OrderTimes(q, r, y);
  }

  lemma QuotientIsPositive(x: real, y: real)
    requires y > 0.0
    ensures x / y > 0.0 <==> x > 0.0
  {
    assert x / y * y == x;
    OrderTimes(0.0, x / y, y);
  }

  function Pow10(n: nat): (r: nat)
    ensures r >= 1
  {
    if n == 0 then 1 else 10 * Pow10(n - 1)
  }

  lemma {:induction false} Pow10Adds(m: nat, n: nat)
    ensures Pow10(m + n) == Pow10(m) * Pow10(n)
  {
    if m == 0 {
    } else {
      Pow10Adds(m - 1, n);
      assert Pow10(m + n) == 10 * Pow10(m - 1 + n);
    }
  }

  /** Nearest integer, ties to the even one: the default rounding of decimal quantization. */
  function RoundHalfEven(x: real): (r: int)
    ensures -0.5 <= r as real - x <= 0.5
    ensures x == x.Floor as real ==> r as real == x
  {
    var f := x.Floor;
    var rest := x - f as real;
    if rest < 0.5 || (rest == 0.5 && f % 2 == 0) then f else f + 1
  }
}
