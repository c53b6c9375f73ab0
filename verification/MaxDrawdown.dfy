/** The backtest metrics' one-pass maximum drawdown against its definition over all pairs. */
module MaxDrawdown {
  import opened Common

  predicate Nonnegative(equity: seq<real>) {
    forall i :: 0 <= i < |equity| ==> equity[i] >= 0.0
  }

  /** Percentage lost from point i to a later point j. */
  function Drop(equity: seq<real>, i: nat, j: nat): real
    requires i <= j < |equity| && equity[i] > 0.0
  {
    100.0 * (equity[i] - equity[j]) / equity[i]
  }

  /** dd is the largest drop over all pairs of points i <= j with a positive first point, or zero without one. */
  ghost predicate IsMaxDrawdown(dd: real, equity: seq<real>) {
    (if forall i :: 0 <= i < |equity| ==> equity[i] <= 0.0 then dd == 0.0
     else exists i: nat, j: nat :: i <= j < |equity| && equity[i] > 0.0 && dd == Drop(equity, i, j))
    && (forall i: nat, j: nat :: i <= j < |equity| && equity[i] > 0.0 ==> Drop(equity, i, j) <= dd)
  }

  /** Point i is positive and the highest so far when the curve has reached point j. */
  predicate IsPeak(equity: seq<real>, i: nat, j: nat) {
    i <= j < |equity| && equity[i] > 0.0 && forall l :: 0 <= l <= j ==> equity[l] <= equity[i]
  }

  /** dd is the largest drop from a peak so far, and zero if there is no peak. */
  ghost predicate IsPeakDrawdown(dd: real, equity: seq<real>) {
    (dd == 0.0 || exists i: nat, j: nat :: IsPeak(equity, i, j) && dd == Drop(equity, i, j))
    && dd >= 0.0 && (forall i: nat, j: nat :: IsPeak(equity, i, j) ==> Drop(equity, i, j) <= dd)
  }

  /** A later fall from a higher peak is at least as deep. */
  lemma HigherPeakFallsDeeper(low: real, peak: real, b: real)
    requires 0.0 < low <= peak && b >= 0.0
    ensures (low - b) / low <= (peak - b) / peak
  {
    var q, p := (low - b) / low, (peak - b) / peak;
    assert (1.0 - q) * low == b && (1.0 - p) * peak == b;
    assert (1.0 - p) * low <= (1.0 - p) * peak;
    assert (q - p) * low == (1.0 - p) * low - (1.0 - q) * low;
    NonpositiveFactor(q - p, low);
  }

  lemma NonpositiveFactor(x: real, y: real)
    requires x * y <= 0.0 && y > 0.0
    ensures x <= 0.0
  {
  }

  /** The loop of the source: a running peak and the deepest fall from it. */
  method ComputeMaxDrawdown(equity: seq<real>) returns (pct: real)
    ensures IsPeakDrawdown(pct, equity)
    ensures Nonnegative(equity) ==> IsMaxDrawdown(pct, equity) && pct <= 100.0
  {
    if |equity| < 2 {
      ShortCurve(equity);
      PeakDrawdownOfNonnegative(0.0, equity);
      return 0.0;
    }
    var peak := equity[0];
    var maxDd := 0.0;
    ghost var at, from, to := 0, 0, 0;
    hide IsPeakDrawdown;
    hide IsMaxDrawdown;
    assert Scanned(equity, 0, at, maxDd, from, to);
    for k := 0 to |equity|
      invariant at < |equity| && peak == equity[at] && Scanned(equity, k, at, maxDd, from, to)
    {
      ScanNext(equity, k, at, maxDd, from, to);
      hide Scanned;
      var b := equity[k];
      if b > peak {
        peak := b;
        at := k;
      }
      var dd := if peak > 0.0 then Fall(peak, b) else 0.0;
      if dd > maxDd {
        maxDd := dd;
        from, to := at, k;
      }
    }
    pct := maxDd * 100.0;
    DeepestFall(maxDd, equity, from, to);
    PeakDrawdownOfNonnegative(pct, equity);
  }

  function Fall(peak: real, b: real): real
    requires peak > 0.0
  {
    (peak - b) / peak
  }

  predicate HighestBefore(equity: seq<real>, k: nat, at: nat) {
    k <= |equity| && at < |equity| && forall i :: 0 <= i < k ==> equity[i] <= equity[at]
  }

  ghost predicate NoDeeperFall(equity: seq<real>, k: nat, dd: real) {
    forall i: nat, j: nat :: IsPeak(equity, i, j) && j < k ==> Fall(equity[i], equity[j]) <= dd
  }

  /** Before point k: where the peak is, and the pair with the deepest fall, if any fall was found. */
  ghost predicate Scanned(equity: seq<real>, k: nat, at: nat, maxDd: real, from: nat, to: nat) {
    (if k == 0 then at == 0 else at < k) && HighestBefore(equity, k, at) && NoDeeperFall(equity, k, maxDd)
    && maxDd >= 0.0 && (maxDd == 0.0 || (IsPeak(equity, from, to) && maxDd == Fall(equity[from], equity[to])))
  }

  lemma NextFall(equity: seq<real>, k: nat, at: nat, before: real, dd: real)
    requires k < |equity| && at <= k && HighestBefore(equity, k + 1, at) && NoDeeperFall(equity, k, before)
      && before <= dd
    requires equity[at] > 0.0 ==> Fall(equity[at], equity[k]) <= dd
    ensures NoDeeperFall(equity, k + 1, dd)
    ensures equity[at] > 0.0 ==> IsPeak(equity, at, k)
  {
    hide Fall;
    forall i: nat, j: nat | IsPeak(equity, i, j) && j < k + 1
      ensures Fall(equity[i], equity[j]) <= dd
    {
      if j == k {
        assert equity[i] <= equity[at] <= equity[i];
      }
    }
  }

  lemma ScanNext(equity: seq<real>, k: nat, at: nat, maxDd: real, from: nat, to: nat)
    requires k < |equity| && Scanned(equity, k, at, maxDd, from, to)
    ensures var at' := if equity[k] > equity[at] then k else at;
      var dd := if equity[at'] > 0.0 then Fall(equity[at'], equity[k]) else 0.0;
      if dd > maxDd then Scanned(equity, k + 1, at', dd, at', k) else Scanned(equity, k + 1, at', maxDd, from, to)
  {
    hide Fall;
    var at' := if equity[k] > equity[at] then k else at;
    assert HighestBefore(equity, k + 1, at');
    var dd := if equity[at'] > 0.0 then Fall(equity[at'], equity[k]) else 0.0;
    NextFall(equity, k, at', maxDd, if dd > maxDd then dd else maxDd);
    hide HighestBefore;
    hide NoDeeperFall;
    hide IsPeak;
  }

  lemma DeepestFall(dd: real, equity: seq<real>, from: nat, to: nat)
    requires dd >= 0.0 && (dd == 0.0 || (IsPeak(equity, from, to) && dd == Fall(equity[from], equity[to])))
    requires forall i: nat, j: nat :: IsPeak(equity, i, j) ==> Fall(equity[i], equity[j]) <= dd
    ensures IsPeakDrawdown(dd * 100.0, equity)
  {
    forall i: nat, j: nat | IsPeak(equity, i, j)
      ensures Drop(equity, i, j) <= dd * 100.0
    {
      DropIsHundredTimes(equity, i, j);
    }
    if dd > 0.0 {
      DropIsHundredTimes(equity, from, to);
    }
  }

  lemma ShortCurve(equity: seq<real>)
    requires |equity| < 2
    ensures IsPeakDrawdown(0.0, equity)
  {
  }

  lemma {:induction false} PeakExists(equity: seq<real>, i: nat, j: nat)
    requires i <= j < |equity| && equity[i] > 0.0
    ensures exists p: nat :: IsPeak(equity, p, j) && equity[p] >= equity[i]
    decreases j
  {
    if j == 0 {
      assert IsPeak(equity, 0, 0);
    } else if i == j {
      if exists l: nat :: l < j && equity[l] > equity[j] {
        var l: nat :| l < j && equity[l] > equity[j];
        PeakExists(equity, l, j - 1);
        var p: nat :| IsPeak(equity, p, j - 1) && equity[p] >= equity[l];
        assert IsPeak(equity, p, j);
      } else {
        assert IsPeak(equity, j, j);
      }
    } else {
      PeakExists(equity, i, j - 1);
      var p: nat :| IsPeak(equity, p, j - 1) && equity[p] >= equity[i];
      if equity[j] > equity[p] {
        assert IsPeak(equity, j, j);
      } else {
        assert IsPeak(equity, p, j);
      }
    }
  }

  /** What the one pass can miss are falls below zero, no others. */
  lemma MissesOnlyFallsBelowZero(dd: real, equity: seq<real>)
    requires IsPeakDrawdown(dd, equity)
    ensures IsMaxDrawdown(dd, equity) <==>
      forall i: nat, j: nat :: i <= j < |equity| && equity[i] > 0.0 && equity[j] < 0.0 ==> Drop(equity, i, j) <= dd
  {
    forall i: nat, j: nat | i <= j < |equity| && equity[i] > 0.0 && equity[j] >= 0.0
      ensures Drop(equity, i, j) <= dd
    {
      PeakExists(equity, i, j);
      var p: nat :| IsPeak(equity, p, j) && equity[p] >= equity[i];
      HigherPeakFallsDeeper(equity[i], equity[p], equity[j]);
      DropIsHundredTimes(equity, i, j);
      DropIsHundredTimes(equity, p, j);
    }
    Attained(dd, equity);
  }

  lemma Attained(dd: real, equity: seq<real>)
    requires IsPeakDrawdown(dd, equity)
    ensures if forall i :: 0 <= i < |equity| ==> equity[i] <= 0.0 then dd == 0.0
            else exists i: nat, j: nat :: i <= j < |equity| && equity[i] > 0.0 && dd == Drop(equity, i, j)
  {
    if dd == 0.0 && exists i :: 0 <= i < |equity| && equity[i] > 0.0 {
      var i :| 0 <= i < |equity| && equity[i] > 0.0;
      assert Drop(equity, i, i) == 0.0;
    }
  }

  lemma PeakDrawdownOfNonnegative(dd: real, equity: seq<real>)
    requires IsPeakDrawdown(dd, equity)
    ensures Nonnegative(equity) ==> IsMaxDrawdown(dd, equity) && dd <= 100.0
  {
    if Nonnegative(equity) {
      MissesOnlyFallsBelowZero(dd, equity);
      WithinHundredPercentIff(dd, equity);
    }
  }

  /** The figure stays within a hundred percent exactly when the curve never goes below zero after a positive
      point. */
  lemma WithinHundredPercentIff(dd: real, equity: seq<real>)
    requires IsPeakDrawdown(dd, equity)
    ensures dd <= 100.0 <==> forall i, j :: 0 <= i <= j < |equity| && equity[i] > 0.0 ==> equity[j] >= 0.0
  {
    if dd <= 100.0 {
      forall i, j | 0 <= i <= j < |equity| && equity[i] > 0.0
        ensures equity[j] >= 0.0
      {
        PeakExists(equity, i, j);
        var p: nat :| IsPeak(equity, p, j) && equity[p] >= equity[i];
        DropIsHundredTimes(equity, p, j);
        FallOverOneIff(equity[p], equity[j]);
      }
    } else {
      var i: nat, j: nat :| IsPeak(equity, i, j) && dd == Drop(equity, i, j);
      DropIsHundredTimes(equity, i, j);
      FallOverOneIff(equity[i], equity[j]);
    }
  }

  lemma FallOverOneIff(peak: real, b: real)
    requires peak > 0.0
    ensures (peak - b) / peak > 1.0 <==> b < 0.0
  {
    var q := (peak - b) / peak;
    assert q * peak == peak - b;
    OrderTimes(1.0, q, peak);
  }

  /** After some positive point the curve goes below zero. */
  predicate FallsBelowZero(equity: seq<real>) {
    exists i, j :: 0 <= i <= j < |equity| && equity[i] > 0.0 > equity[j]
  }

  /** No fall that ends below zero is deeper than the one from i to j. */
  predicate IsDeepestBelowZero(equity: seq<real>, i: nat, j: nat)
    requires i <= j < |equity| && equity[i] > 0.0
  {
    forall k: nat, l: nat ::
      k <= l < |equity| && equity[k] > 0.0 > equity[l] ==> Drop(equity, k, l) <= Drop(equity, i, j)
  }

  /** The curves on which the one pass finds the maximum over all pairs: those that never go below zero after a
      positive point, and those on which one of the deepest falls below zero starts from a peak. */
  lemma OnePassIsMaximumIff(dd: real, equity: seq<real>)
    requires IsPeakDrawdown(dd, equity)
    ensures IsMaxDrawdown(dd, equity) <==>
      !FallsBelowZero(equity)
      || exists i: nat, j: nat :: IsPeak(equity, i, j) && equity[j] < 0.0 && IsDeepestBelowZero(equity, i, j)
  {
    MissesOnlyFallsBelowZero(dd, equity);
    WithinHundredPercentIff(dd, equity);
    if dd > 100.0 {
      var i: nat, j: nat :| IsPeak(equity, i, j) && dd == Drop(equity, i, j);
      DropIsHundredTimes(equity, i, j);
      FallOverOneIff(equity[i], equity[j]);
      assert IsMaxDrawdown(dd, equity) ==> IsDeepestBelowZero(equity, i, j);
    }
  }

  /** Below zero a lower peak can fall deeper in percent than the highest one, and the figure misses it. */
  lemma NegativeBalanceHidesTheDeepestFall()
    ensures IsPeakDrawdown(150.0, [1.0, 10.0, -5.0]) && !IsMaxDrawdown(150.0, [1.0, 10.0, -5.0])
  {
    var e := [1.0, 10.0, -5.0];
    assert Drop(e, 0, 2) == 600.0 && Drop(e, 1, 2) == 150.0;
    assert IsPeak(e, 1, 2);
    forall i: nat, j: nat | IsPeak(e, i, j)
      ensures Drop(e, i, j) <= 150.0
    {
      assert e[0] == 1.0 && e[1] == 10.0 && e[2] == -5.0;
      assert i < 2;
      assert i == 0 ==> j == 0;
      assert Drop(e, 0, 0) == 0.0 && Drop(e, 1, 1) == 0.0;
    }
  }

  lemma DropIsHundredTimes(equity: seq<real>, i: nat, j: nat)
    requires i <= j < |equity| && equity[i] > 0.0
    ensures Drop(equity, i, j) == 100.0 * ((equity[i] - equity[j]) / equity[i])
  {
  }

  /** The value is determined by the curve. */
  lemma MaxDrawdownIsUnique(a: real, b: real, equity: seq<real>)
    requires IsMaxDrawdown(a, equity) && IsMaxDrawdown(b, equity)
    ensures a == b
  {
  }

  /** No curve has a drawdown of zero except those that never fall after a positive point. */
  lemma NoDrawdownIffNeverFalls(dd: real, equity: seq<real>)
    requires IsPeakDrawdown(dd, equity)
    ensures dd == 0.0 <==> forall i, j :: 0 <= i <= j < |equity| && equity[i] > 0.0 ==> equity[i] <= equity[j]
  {
    if dd == 0.0 {
      forall i, j | 0 <= i <= j < |equity| && equity[i] > 0.0
        ensures equity[i] <= equity[j]
      {
        PeakExists(equity, i, j);
        var p: nat :| IsPeak(equity, p, j) && equity[p] >= equity[i];
        DropIsHundredTimes(equity, p, j);
        QuotientIsPositive(equity[p] - equity[j], equity[p]);
      }
    } else {
      var i: nat, j: nat :| IsPeak(equity, i, j) && dd == Drop(equity, i, j);
      DropIsHundredTimes(equity, i, j);
      QuotientIsPositive(equity[i] - equity[j], equity[i]);
    }
  }
}
