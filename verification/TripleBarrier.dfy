/** Triple-barrier labelling of candles: which of two price barriers is touched first within a holding period. */
module TripleBarrier {
  import opened Common

  datatype Label = BuyLabel | SellLabel | HoldLabel

  datatype Bar = Bar(high: real, low: real, close: real)

  /** One row of the target matrix. */
  datatype Row = Row(buy: int, sell: int, hold: int)

  function OneHot(l: Label): Row {
    match l
    case BuyLabel => Row(1, 0, 0)
    case SellLabel => Row(0, 1, 0)
    case HoldLabel => Row(0, 0, 1)
  }

  predicate TouchesTop(b: Bar, entry: Bar, distance: real) {
    b.high >= entry.close + distance
  }

  predicate TouchesBottom(b: Bar, entry: Bar, distance: real) {
    b.low <= entry.close - distance
  }

  /** Bar t is the first of bars i+1 .. i+maxHolding to touch a barrier. */
  predicate FirstTouch(bars: seq<Bar>, i: nat, t: nat, distance: real, maxHolding: nat) {
    i < t < |bars| && t <= i + maxHolding
    && (TouchesTop(bars[t], bars[i], distance) || TouchesBottom(bars[t], bars[i], distance))
    && forall u :: i < u < t ==> !TouchesTop(bars[u], bars[i], distance) && !TouchesBottom(bars[u], bars[i], distance)
  }

  /** A row has barriers when a full holding period follows it and its ATR is a positive number. */
  predicate HasBarriers(bars: seq<Bar>, atr: seq<Option<real>>, i: nat, maxHolding: nat)
    requires i < |bars| == |atr|
  {
    i + maxHolding < |bars| && atr[i].Some? && atr[i].value > 0.0
  }

  /** The barrier touched first, the top one when a bar touches both. */
  ghost predicate Touched(l: Label, bars: seq<Bar>, i: nat, distance: real, maxHolding: nat) {
    match l
    case BuyLabel =>
      i < |bars|
      && exists t: nat :: FirstTouch(bars, i, t, distance, maxHolding) && TouchesTop(bars[t], bars[i], distance)
    case SellLabel =>
      i < |bars|
      && exists t: nat :: FirstTouch(bars, i, t, distance, maxHolding) && !TouchesTop(bars[t], bars[i], distance)
    case HoldLabel => forall t: nat :: !FirstTouch(bars, i, t, distance, maxHolding)
  }

  /** The label the design promises for row i. */
  ghost predicate IsLabel(l: Label, bars: seq<Bar>, atr: seq<Option<real>>, i: nat, multiplier: real, maxHolding: nat)
    requires i < |bars| == |atr|
  {
    if HasBarriers(bars, atr, i, maxHolding) then Touched(l, bars, i, multiplier * atr[i].value, maxHolding)
    else l == HoldLabel
  }

  ghost predicate RowRight(row: Row, bars: seq<Bar>, atr: seq<Option<real>>, i: nat, multiplier: real, maxHolding: nat)
    requires i < |bars| == |atr|
  {
    exists l :: row == OneHot(l) && IsLabel(l, bars, atr, i, multiplier, maxHolding)
  }

  /** The inner loop: scans the holding period and stops at the first touch. */
  method LabelRow(bars: seq<Bar>, i: nat, distance: real, maxHolding: nat) returns (l: Label)
    requires i + maxHolding < |bars|
    ensures Touched(l, bars, i, distance, maxHolding)
  {
    var t := i + 1;
    while t < Min(i + maxHolding + 1, |bars|)
      invariant i < t <= i + maxHolding + 1
      invariant forall u ::
        i < u < t ==> !TouchesTop(bars[u], bars[i], distance) && !TouchesBottom(bars[u], bars[i], distance)
    {
      if bars[t].high >= bars[i].close + distance {
        assert FirstTouch(bars, i, t, distance, maxHolding);
        return BuyLabel;
      }
      if bars[t].low <= bars[i].close - distance {
        assert FirstTouch(bars, i, t, distance, maxHolding);
        return SellLabel;
      }
      t := t + 1;
    }
    l := HoldLabel;
  }

  /** Fills the matrix row by row, as the source does. A missing ATR is NaN there. */
  method CreateTargets(bars: seq<Bar>, atr: seq<Option<real>>, multiplier: real, maxHolding: nat)
    returns (targets: seq<Row>)
    requires |bars| == |atr|
    ensures |targets| == |bars|
    ensures forall i :: 0 <= i < |bars| ==> RowRight(targets[i], bars, atr, i, multiplier, maxHolding)
  {
    var n := |bars|;
    var matrix := new Row[n](_ => Row(0, 0, 0));
    var filled := if n > maxHolding then n - maxHolding else 0;
    for i := 0 to filled
      invariant forall k :: 0 <= k < i ==> RowRight(matrix[k], bars, atr, k, multiplier, maxHolding)
    {
      var l := HoldLabel;
      if atr[i].Some? && atr[i].value > 0.0 {
        l := LabelRow(bars, i, multiplier * atr[i].value, maxHolding);
      }
      assert IsLabel(l, bars, atr, i, multiplier, maxHolding);
      matrix[i] := OneHot(l);
    }
    // The source's slice [-maxHolding:] is the whole matrix when maxHolding is 0.
    for i := (if maxHolding == 0 then 0 else filled) to n
      invariant forall k ::
        0 <= k < n && (k < filled || k < i) ==> RowRight(matrix[k], bars, atr, k, multiplier, maxHolding)
    {
      assert IsLabel(HoldLabel, bars, atr, i, multiplier, maxHolding);
      matrix[i] := OneHot(HoldLabel);
    }
    targets := matrix[..];
  }

  // ---------- What the labels mean ----------

  /** Each row has exactly one label. */
  lemma LabelIsUnique(l: Label, m: Label, bars: seq<Bar>, atr: seq<Option<real>>, i: nat, multiplier: real,
                      maxHolding: nat)
    requires i < |bars| == |atr|
    requires IsLabel(l, bars, atr, i, multiplier, maxHolding) && IsLabel(m, bars, atr, i, multiplier, maxHolding)
    ensures l == m
  {
    if HasBarriers(bars, atr, i, maxHolding) {
      var d := multiplier * atr[i].value;
      forall t: nat, u: nat | FirstTouch(bars, i, t, d, maxHolding) && FirstTouch(bars, i, u, d, maxHolding)
        ensures t == u
      {
      }
    }
  }

  /** The bar stays strictly between the two barriers. */
  predicate StaysInside(b: Bar, close: real, distance: real) {
    close - distance < b.low && b.high < close + distance
  }

  /** Every bar after i and before t stays inside. */
  predicate InsideUntil(bars: seq<Bar>, i: nat, t: nat, distance: real)
    requires i < |bars| && t <= |bars|
  {
    forall u :: i < u < t ==> StaysInside(bars[u], bars[i].close, distance)
  }

  /** Among the maxHolding bars after i, the one that first leaves the barriers. */
  predicate LeavesFirst(bars: seq<Bar>, i: nat, t: nat, distance: real, maxHolding: nat)
    requires i < |bars|
  {
    i < t <= i + maxHolding && t < |bars| && InsideUntil(bars, i, t, distance)
    && !StaysInside(bars[t], bars[i].close, distance)
  }

  /** If some bar of the holding period touches a barrier, one of them is first. */
  lemma {:induction false} FirstTouchExists(bars: seq<Bar>, i: nat, t: nat, d: real, maxHolding: nat)
    requires i < t < |bars| && t <= i + maxHolding
    requires TouchesTop(bars[t], bars[i], d) || TouchesBottom(bars[t], bars[i], d)
    ensures exists u: nat :: u <= t && FirstTouch(bars, i, u, d, maxHolding)
  {
    if !FirstTouch(bars, i, t, d, maxHolding) {
      var u :| i < u < t && (TouchesTop(bars[u], bars[i], d) || TouchesBottom(bars[u], bars[i], d));
      FirstTouchExists(bars, i, u, d, maxHolding);
    }
  }

  lemma TouchedOnPrices(l: Label, bars: seq<Bar>, i: nat, d: real, maxHolding: nat)
    requires i + maxHolding < |bars| && Touched(l, bars, i, d, maxHolding)
    ensures l == HoldLabel <==> InsideUntil(bars, i, i + maxHolding + 1, d)
    ensures l == BuyLabel <==>
      exists t: nat :: LeavesFirst(bars, i, t, d, maxHolding) && bars[t].high >= bars[i].close + d
    ensures l == SellLabel <==>
      exists t: nat :: LeavesFirst(bars, i, t, d, maxHolding) && bars[t].high < bars[i].close + d
  {
    forall t: nat
      ensures FirstTouch(bars, i, t, d, maxHolding) <==> LeavesFirst(bars, i, t, d, maxHolding)
    {
    }
    if l == HoldLabel {
      forall u | i < u < i + maxHolding + 1
        ensures StaysInside(bars[u], bars[i].close, d)
      {
        if !StaysInside(bars[u], bars[i].close, d) {
          FirstTouchExists(bars, i, u, d, maxHolding);
        }
      }
    }
  }

  /** A row of the matrix on the prices: one column is set. HOLD without a full holding period, without a positive ATR,
      or when no bar leaves the barriers; else BUY if the first to leave them reaches the top one, SELL if not. */
  lemma RowOnPrices(row: Row, bars: seq<Bar>, atr: seq<Option<real>>, i: nat, multiplier: real, maxHolding: nat)
    requires i < |bars| == |atr| && RowRight(row, bars, atr, i, multiplier, maxHolding)
    ensures row.buy + row.sell + row.hold == 1 && 0 <= row.buy && 0 <= row.sell && 0 <= row.hold
    ensures |bars| <= i + maxHolding || atr[i].None? || atr[i].value <= 0.0 ==> row.hold == 1
    ensures i + maxHolding < |bars| && atr[i].Some? && atr[i].value > 0.0 ==>
      var d := multiplier * atr[i].value;
      (row.hold == 1 <==> InsideUntil(bars, i, i + maxHolding + 1, d))
      && (row.buy == 1 <==>
            exists t: nat :: LeavesFirst(bars, i, t, d, maxHolding) && bars[t].high >= bars[i].close + d)
      && (row.sell == 1 <==>
            exists t: nat :: LeavesFirst(bars, i, t, d, maxHolding) && bars[t].high < bars[i].close + d)
  {
    var l :| row == OneHot(l) && IsLabel(l, bars, atr, i, multiplier, maxHolding);
    if i + maxHolding < |bars| && atr[i].Some? && atr[i].value > 0.0 {
      TouchedOnPrices(l, bars, i, multiplier * atr[i].value, maxHolding);
      hide Touched;
    }
  }

  /** Nobody touches the wider barriers before the narrower ones: a row left HOLD stays HOLD. */
  lemma HoldIsMonotone(bars: seq<Bar>, atr: seq<Option<real>>, i: nat, narrow: real, wide: real, maxHolding: nat)
    requires i < |bars| == |atr| && narrow <= wide
    requires IsLabel(HoldLabel, bars, atr, i, narrow, maxHolding)
    ensures IsLabel(HoldLabel, bars, atr, i, wide, maxHolding)
  {
    if HasBarriers(bars, atr, i, maxHolding) {
      var d, e := narrow * atr[i].value, wide * atr[i].value;
      assert d <= e by { assert (wide - narrow) * atr[i].value >= 0.0; }
      forall t: nat
        ensures !FirstTouch(bars, i, t, e, maxHolding)
      {
        if FirstTouch(bars, i, t, e, maxHolding) {
          FirstTouchExists(bars, i, t, d, maxHolding);
        }
      }
    }
  }

  /** The market turned upside down. */
  function Mirror(bars: seq<Bar>): (r: seq<Bar>)
    ensures |r| == |bars|
  {
    seq(|bars|, i requires 0 <= i < |bars| => Bar(-bars[i].low, -bars[i].high, -bars[i].close))
  }

  /** Mirroring the market swaps BUY and SELL and keeps HOLD, except that a first bar touching both
      barriers is BUY on either side. */
  lemma MirrorSwapsLabels(l: Label, bars: seq<Bar>, i: nat, d: real, maxHolding: nat)
    requires Touched(l, bars, i, d, maxHolding)
    ensures l == HoldLabel ==> Touched(HoldLabel, Mirror(bars), i, d, maxHolding)
    ensures l == SellLabel ==> Touched(BuyLabel, Mirror(bars), i, d, maxHolding)
    ensures l == BuyLabel ==>
      exists t: nat :: FirstTouch(bars, i, t, d, maxHolding)
        && Touched(if TouchesBottom(bars[t], bars[i], d) then BuyLabel else SellLabel, Mirror(bars), i, d, maxHolding)
  {
    forall t: nat
      ensures FirstTouch(Mirror(bars), i, t, d, maxHolding) <==> FirstTouch(bars, i, t, d, maxHolding)
    {
      if i < |bars| {
        assert forall u :: i < u < |bars| ==>
          (TouchesTop(Mirror(bars)[u], Mirror(bars)[i], d) <==> TouchesBottom(bars[u], bars[i], d))
          && (TouchesBottom(Mirror(bars)[u], Mirror(bars)[i], d) <==> TouchesTop(bars[u], bars[i], d));
      }
    }
    if l != HoldLabel {
      var t: nat :| FirstTouch(bars, i, t, d, maxHolding) && (l == BuyLabel <==> TouchesTop(bars[t], bars[i], d));
      assert FirstTouch(Mirror(bars), i, t, d, maxHolding);
      assert TouchesTop(Mirror(bars)[t], Mirror(bars)[i], d) <==> TouchesBottom(bars[t], bars[i], d);
    }
  }
}
