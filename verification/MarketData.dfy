/** The data-engine's immutable value objects: prices, volumes, timeframes, ticks and candles. */
module MarketData {
  import opened Common

  /** A price in minor units: `minor / 10^decimals`. */
  datatype Price = Price(minor: int, decimals: nat)

  datatype Volume = Volume(minor: int, decimals: nat) {

    /** Bigint division truncates toward zero. */
    static function TruncatedDiv(a: int, b: nat): (r: int)
      requires b > 0
    {
      if a >= 0 then a / b else -((-a) / b)
    }

    function ScaleTo(target: nat): (r: Volume) {
      if decimals == target then this
      else if target > decimals then Volume(minor * Pow10(target - decimals), target)
      else Volume(TruncatedDiv(minor, Pow10(decimals - target)), target)
    }

    function Add(other: Volume): (r: Volume) {
      var d := Max(decimals, other.decimals);
      Volume(ScaleTo(d).minor + other.ScaleTo(d).minor, d)
    }

    predicate SameAmount(other: Volume) {
      var d := Max(decimals, other.decimals);
      ScaleTo(d).minor == other.ScaleTo(d).minor
    }
  }

  datatype Timeframe = OneMinute | FiveMinutes | FifteenMinutes | OneHour {

    function Value(): nat {
      match this
      case OneMinute => 1
      case FiveMinutes => 5
      case FifteenMinutes => 15
      case OneHour => 1
    }

    function UnitMilliseconds(): nat {
      if this.OneHour? then 3600000 else 60000
    }

    function ToMilliseconds(): (r: nat)
      ensures r > 0
    {
      Value() * UnitMilliseconds()
    }

    function Text(): string {
      match this
      case OneMinute => "1m"
      case FiveMinutes => "5m"
      case FifteenMinutes => "15m"
      case OneHour => "1h"
    }

    /** Position in ALL, finest first. */
    function Rank(): (r: nat)
      ensures r < |ALL| && ALL[r] == this
    {
      match this
      case OneMinute => 0
      case FiveMinutes => 1
      case FifteenMinutes => 2
      case OneHour => 3
    }
  }

  const ALL: seq<Timeframe> := [OneMinute, FiveMinutes, FifteenMinutes, OneHour]

  datatype Side = Buy | Sell

  /** One market event. `ts` is the exchange's event time in whole milliseconds. */
  datatype Tick = Tick(symbol: string, price: Price, quantity: int, side: Side, ts: nat, tradeId: string)

  /** Start of the window of `tf` that holds `ts`. */
  function Align(ts: nat, tf: Timeframe): (r: nat)
    ensures r <= ts < r + tf.ToMilliseconds()
  {
    ts / tf.ToMilliseconds() * tf.ToMilliseconds()
  }

  datatype Candle = Candle(symbol: string, timeframe: Timeframe, open: Price, high: Price, low: Price,
                           close: Price, volume: Volume, openTs: nat, closeTs: nat, isComplete: bool)
  {
    static function FromTick(t: Tick, tf: Timeframe): (r: Candle) {
      Candle(t.symbol, tf, t.price, t.price, t.price, t.price, Volume(t.quantity, 8),
             Align(t.ts, tf), Align(t.ts, tf) + tf.ToMilliseconds(), false)
    }

    /** High and low compare minor units only, whatever the two prices' decimals. */
    function WithTick(t: Tick): (r: Candle) {
      this.(high := if t.price.minor > high.minor then t.price else high,
            low := if t.price.minor < low.minor then t.price else low,
            close := t.price,
            volume := volume.Add(Volume(t.quantity, 8)))
    }

    function MarkComplete(): (r: Candle) {
      this.(isComplete := true)
    }
  }

  function SumVolume(cs: seq<Candle>): int {
    if cs == [] then 0 else SumVolume(Init(cs)) + Last(cs).volume.minor
  }

  // ---------- Windows of different timeframes ----------

  lemma MulMonotone(a: int, b: int, m: nat)
    requires a <= b
    ensures a * m <= b * m
  {
    assert (b - a) * m >= 0;
  }

  /** The quotient is the only multiplier whose half-open interval holds `ts`. */
  lemma QuotientIsUnique(ts: nat, p: nat, m: nat)
    requires m > 0 && p * m <= ts < p * m + m
    ensures ts / m == p
  {
    var r := ts - p * m;
    assert ts == p * m + r;
    if ts / m <= p {
      MulMonotone(ts / m, p, m);
    }
    if p < ts / m {
      MulMonotone(p + 1, ts / m, m);
    } else if ts / m < p {
      MulMonotone(ts / m + 1, p, m);
    }
  }

  lemma AlignIsUnique(ts: nat, p: nat, tf: Timeframe)
    requires p * tf.ToMilliseconds() <= ts < p * tf.ToMilliseconds() + tf.ToMilliseconds()
    ensures Align(ts, tf) == p * tf.ToMilliseconds()
  {
    QuotientIsUnique(ts, p, tf.ToMilliseconds());
  }

  lemma AlignIsMonotone(a: nat, b: nat, tf: Timeframe)
    requires a <= b
    ensures Align(a, tf) <= Align(b, tf)
  {
    MulMonotone(a / tf.ToMilliseconds(), b / tf.ToMilliseconds(), tf.ToMilliseconds());
  }

  /** Windows nest: every window of a finer timeframe lies inside one window of each coarser one. */
  lemma WindowsNest(ts: nat, fine: Timeframe, coarse: Timeframe)
    requires fine.Rank() <= coarse.Rank()
    ensures Align(Align(ts, fine), coarse) == Align(ts, coarse)
    ensures Align(ts, coarse) <= Align(ts, fine)
    ensures Align(ts, fine) + fine.ToMilliseconds() <= Align(ts, coarse) + coarse.ToMilliseconds()
  {
    var f, c := fine.ToMilliseconds(), coarse.ToMilliseconds();
    var k := IntervalRatio(fine, coarse);
    NestedMultiples(ts, f, k);
    AlignIsUnique(ts / f * f, ts / c, coarse);
  }

  lemma IntervalRatio(fine: Timeframe, coarse: Timeframe) returns (k: nat)
    requires fine.Rank() <= coarse.Rank()
    ensures k > 0 && coarse.ToMilliseconds() == k * fine.ToMilliseconds()
  {
    var minutes := (tf: Timeframe) => if tf.OneHour? then 60 else tf.Value();
    k := minutes(coarse) / minutes(fine);
    assert coarse.ToMilliseconds() == minutes(coarse) * 60000;
  }

  lemma NestedMultiples(ts: nat, f: nat, k: nat)
    requires f > 0 && k > 0 && k * f > 0
    ensures ts / (k * f) * (k * f) <= ts / f * f
    ensures ts / f * f + f <= ts / (k * f) * (k * f) + k * f
  {
    var q, p := ts / (k * f), ts / f;
    assert q * (k * f) == q * k * f;
    assert (q * k + k) * f == q * (k * f) + k * f;
    assert p * f <= ts < p * f + f;
    if p < q * k {
      MulMonotone(p + 1, q * k, f);
    } else {
      MulMonotone(q * k, p, f);
    }
    if q * k + k <= p {
      MulMonotone(q * k + k, p, f);
    } else {
      MulMonotone(p + 1, q * k + k, f);
    }
  }

  // ---------- Volumes ----------

  /** Adding volumes is exact on every common scale. */
  lemma {:induction false} VolumeAddIsExact(a: Volume, b: Volume, d: nat)
    requires a.decimals <= d && b.decimals <= d
    ensures a.Add(b).decimals <= d
    ensures a.Add(b).ScaleTo(d).minor == a.ScaleTo(d).minor + b.ScaleTo(d).minor
  {
    var m := Max(a.decimals, b.decimals);
    ScalingComposes(a, m, d);
    ScalingComposes(b, m, d);
    var k := Pow10(d - m);
    var x, y := a.ScaleTo(m).minor, b.ScaleTo(m).minor;
    assert (x + y) * k == x * k + y * k;
  }

  /** Scaling down drops digits, toward zero. */
  lemma ScalingDownTruncates(v: Volume, d: nat)
    requires d < v.decimals
    ensures v.ScaleTo(d).decimals == d
    ensures var k, r := Pow10(v.decimals - d), v.ScaleTo(d).minor;
      if v.minor >= 0 then r >= 0 && r * k <= v.minor < r * k + k else r <= 0 && r * k - k < v.minor <= r * k
  {
    hide Pow10;
    TruncationBounds(v.minor, Pow10(v.decimals - d));
    hide Volume.TruncatedDiv;
  }

  lemma TruncationBounds(a: int, k: nat)
    requires k > 0
    ensures var r := Volume.TruncatedDiv(a, k);
      if a >= 0 then r >= 0 && r * k <= a < r * k + k else r <= 0 && r * k - k < a <= r * k
  {
    if a >= 0 {
      QuotientBounds(a, k);
    } else {
      QuotientBounds(-a, k);
    }
    hide Volume.TruncatedDiv;
  }

  lemma QuotientBounds(n: int, k: nat)
    requires n >= 0 && k > 0
    ensures Volume.TruncatedDiv(n, k) >= 0 && Volume.TruncatedDiv(-n, k) <= 0
    ensures Volume.TruncatedDiv(n, k) * k <= n < Volume.TruncatedDiv(n, k) * k + k
    ensures Volume.TruncatedDiv(-n, k) * k - k < -n <= Volume.TruncatedDiv(-n, k) * k
  {
    var q := n / k;
    QuotientTimes(n, q, k);
    assert Volume.TruncatedDiv(n, k) == q && Volume.TruncatedDiv(-n, k) == -q;
    hide Volume.TruncatedDiv;
  }

  lemma QuotientTimes(n: int, q: int, k: nat)
    requires n >= 0 && k > 0 && q == n / k
    ensures q >= 0 && q * k <= n < q * k + k && (-q) * k == -(q * k)
  {
    assert n == q * k + n % k;
  }

  lemma {:induction false} ScalingComposes(v: Volume, m: nat, d: nat)
    requires v.decimals <= m <= d
    ensures v.ScaleTo(m).ScaleTo(d) == v.ScaleTo(d)
    ensures v.ScaleTo(d).minor == v.minor * Pow10(d - v.decimals)
    ensures v.ScaleTo(d).minor == v.ScaleTo(m).minor * Pow10(d - m)
  {
    Pow10Adds(m - v.decimals, d - m);
    assert v.minor * (Pow10(m - v.decimals) * Pow10(d - m)) == v.minor * Pow10(m - v.decimals) * Pow10(d - m);
  }

  /** `equals` compares amounts: cross-multiplied minors agree, whatever the two scales. */
  lemma {:induction false} SameAmountIffCrossProductsAgree(a: Volume, b: Volume)
    ensures a.SameAmount(b) <==> a.minor * Pow10(b.decimals) == b.minor * Pow10(a.decimals)
  {
    if a.decimals <= b.decimals {
      CrossProduct(a, b);
    } else {
      CrossProduct(b, a);
    }
  }

  lemma {:induction false} CrossProduct(a: Volume, b: Volume)
    requires a.decimals <= b.decimals
    ensures a.SameAmount(b) <==> a.minor * Pow10(b.decimals) == b.minor * Pow10(a.decimals)
  {
    var s := Pow10(b.decimals - a.decimals);
    var k := Pow10(a.decimals);
    Pow10Adds(b.decimals - a.decimals, a.decimals);
    assert a.minor * (s * k) == a.minor * s * k;
    assert a.minor * s * k == b.minor * k <==> a.minor * s == b.minor by {
      CancelFactor(a.minor * s, b.minor, k);
    }
  }

  lemma CancelFactor(x: int, y: int, k: nat)
    requires k > 0
    ensures x * k == y * k <==> x == y
  {
    Distribute(x, y - x, k);
    ProductIsNotZero(y - x, k);
  }

  lemma Distribute(x: int, d: int, k: nat)
    ensures (x + d) * k == x * k + d * k
  {
  }

  lemma ProductIsNotZero(d: int, k: nat)
    requires k > 0
    ensures d * k == 0 <==> d == 0
  {
  }

  // ---------- Prices of different scales ----------

  predicate CheaperThan(a: Price, b: Price) {
    a.minor * Pow10(b.decimals) < b.minor * Pow10(a.decimals)
  }

  /** Comparing minor units, as candles do, ranks two prices correctly for all amounts
      exactly when the two prices have the same number of decimals. */
  lemma {:induction false} MinorOrderIsPriceOrderIffSameDecimals(d: nat, e: nat)
    ensures (forall x: nat, y: nat :: x < y <==> CheaperThan(Price(x, d), Price(y, e))) <==> d == e
  {
    if d == e {
      forall x: nat, y: nat ensures x < y <==> CheaperThan(Price(x, d), Price(y, e)) {
        var k := Pow10(d);
        if x < y { assert (y - x) * k > 0; } else { assert (x - y) * k >= 0; }
      }
    } else if d < e {
      Pow10Grows(d, e);
      assert !CheaperThan(Price(1, d), Price(2, e));
    } else {
      Pow10Grows(e, d);
      assert CheaperThan(Price(1, d), Price(1, e));
    }
  }

  lemma {:induction false} Pow10Grows(d: nat, e: nat)
    requires d < e
    ensures Pow10(e) >= 10 * Pow10(d)
  {
    if d + 1 < e {
      Pow10Grows(d, e - 1);
    }
  }
}
