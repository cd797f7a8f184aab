/** The two single-pass drawdowns (`analytics.py`, `portfolio.py`) and their all-pairs meaning. */
module Drawdown {
  import opened Base
  import opened Money

  /** Relative change from `from` to `to`. */
  function Change(from: real, to: real): (r: real)
    requires from != 0.0
  {
    (to - from) / from
  }

  function Peak(curve: seq<real>): (r: real)
    requires curve != []
  {
    var last := curve[|curve| - 1];
    if |curve| == 1 then last
    else
      var before := Peak(curve[..|curve| - 1]);
      if last > before then last else before
  }

  /** The deepest fall below the running peak, as a number that is not positive. */
  function Fall(curve: seq<real>): (worst: real)
    ensures worst <= 0.0
  {
    if curve == [] then 0.0
    else
      var before, peak := Fall(curve[..|curve| - 1]), Peak(curve);
      if peak > 0.0 && Change(peak, curve[|curve| - 1]) < before then Change(peak, curve[|curve| - 1]) else before
  }

  /** `analytics.max_drawdown`: the peak starts unset and may be negative; the result is not positive. */
  method AnalyticsMaxDrawdown(equity: seq<real>) returns (worst: real)
    ensures worst == Fall(equity)
  {
    var peak: Option<real> := None;
    worst := 0.0;
    for i := 0 to |equity|
      invariant peak == if i == 0 then None else Some(Peak(equity[..i]))
      invariant worst == Fall(equity[..i])
    {
      assert equity[..i + 1][..i] == equity[..i];
      var value := equity[i];
      peak := if peak.None? || value > peak.value then Some(value) else peak;
      if peak.value != 0.0 {
        var drawdown := (value - peak.value) / peak.value;
        if peak.value < 0.0 {
          RatioOfNegatives(value - peak.value, peak.value);
        }
        if drawdown < worst {
          worst := drawdown;
        }
      }
    }
    assert equity[..|equity|] == equity;
  }

  lemma RatioOfNegatives(a: real, b: real)
    requires a <= 0.0 && b < 0.0
    ensures a / b >= 0.0
  {
  }

  /** `portfolio.max_drawdown`: the peak starts at zero; the result is not negative. */
  method PortfolioMaxDrawdown(equities: seq<real>) returns (worst: real)
    ensures worst == -Fall(equities)
  {
    hide Peak, Fall;
    var peak := 0.0;
    worst := 0.0;
    assert equities[..0] == [];
    NothingFallen();
    for i := 0 to |equities|
      invariant peak == if i == 0 || Peak(equities[..i]) <= 0.0 then 0.0 else Peak(equities[..i])
      invariant worst == -Fall(equities[..i])
    {
      PassOneMore(equities, i);
      var equity := equities[i];
      peak := if equity > peak then equity else peak;
      if peak > 0.0 {
        var drawdown := (peak - equity) / peak;
        DivideBack(peak - equity, -Change(peak, equity), peak);
        worst := if drawdown > worst then drawdown else worst;
      }
    }
    assert equities[..|equities|] == equities;
  }

  lemma NothingFallen()
    ensures Fall([]) == 0.0
  {
  }

  lemma PassOneMore(curve: seq<real>, i: nat)
    requires i < |curve|
    ensures Peak(curve[..i + 1]) == if i == 0 || curve[i] > Peak(curve[..i]) then curve[i] else Peak(curve[..i])
    ensures var before, peak := Fall(curve[..i]), Peak(curve[..i + 1]);
            Fall(curve[..i + 1]) == if peak > 0.0 && Change(peak, curve[i]) < before then Change(peak, curve[i])
              else before
  {
    assert curve[..i + 1][..i] == curve[..i];
  }

  predicate NonNegativeCurve(curve: seq<real>) {
    forall i :: 0 <= i < |curve| ==> 0.0 <= curve[i]
  }

  lemma {:induction false} PeakBounds(curve: seq<real>)
    requires curve != []
    ensures forall i :: 0 <= i < |curve| ==> curve[i] <= Peak(curve)
    ensures exists i :: 0 <= i < |curve| && curve[i] == Peak(curve)
  {
    var last := |curve| - 1;
    assert curve[last] == curve[|curve| - 1];
    if |curve| > 1 {
      PeakBounds(curve[..last]);
      var i :| 0 <= i < last && curve[..last][i] == Peak(curve[..last]);
      assert curve[i] == Peak(curve[..last]);
    }
  }

  /** A higher starting point makes the fall to the same non-negative value at least as deep. */
  lemma DeeperFromHigher(low: real, high: real, to: real)
    requires 0.0 < low <= high && 0.0 <= to
    ensures Change(high, to) <= Change(low, to)
    ensures -1.0 <= Change(high, to)
    ensures 0.0 < to ==> -1.0 < Change(high, to)
  {
    ChangeIsRatio(low, to);
    ChangeIsRatio(high, to);
    hide Change;
    QuotientOrder(low, high, to);
  }

  lemma QuotientOrder(low: real, high: real, to: real)
    requires 0.0 < low <= high && 0.0 <= to
    ensures 0.0 <= to / high <= to / low && (0.0 < to ==> 0.0 < to / high)
  {
    var x, y := to / low, to / high;
    assert y * high == to && x * low == to;
    assert 0.0 <= y;
    MulMonotone(low, high, y);
    if x < y {
      MulStrict(x, y, low);
    }
  }

  lemma ChangeIsRatio(from: real, to: real)
    requires 0.0 < from
    ensures Change(from, to) == to / from - 1.0
  {
    DivideBack(to - from, to / from - 1.0, from);
  }

  // ----- The meaning over all pairs

  predicate Pair(curve: seq<real>, i: int, j: int) {
    0 <= i <= j < |curve| && 0.0 < curve[i]
  }

  /** No pair i <= j from a positive value falls deeper, and some pair falls as deep, unless nothing falls. */
  ghost predicate MinimumOverPairs(curve: seq<real>) {
    && (forall i, j :: Pair(curve, i, j) ==> Fall(curve) <= Change(curve[i], curve[j]))
    && (Fall(curve) == 0.0 || exists i, j :: Pair(curve, i, j) && Fall(curve) == Change(curve[i], curve[j]))
  }

  /** The last value lies at least as deep below the peak as below any other positive value. */
  predicate PeakDeepest(curve: seq<real>) {
    forall i :: 0 <= i < |curve| && 0.0 < curve[i] ==>
      Peak(curve) > 0.0 && Change(Peak(curve), curve[|curve| - 1]) <= Change(curve[i], curve[|curve| - 1])
  }

  lemma LastPair(curve: seq<real>, i: int)
    requires PeakDeepest(curve) && Pair(curve, i, |curve| - 1)
    ensures Fall(curve) <= Change(curve[i], curve[|curve| - 1])
  {
    hide Change;
  }

  lemma {:induction false} NoPairDeeper(curve: seq<real>, i: int, j: int)
    requires forall n :: 1 <= n <= |curve| ==> PeakDeepest(curve[..n])
    requires Pair(curve, i, j)
    ensures Fall(curve) <= Change(curve[i], curve[j])
    decreases |curve|
  {
    hide Change, PeakDeepest;
    assert curve[..|curve|] == curve;
    if j == |curve| - 1 {
      LastPair(curve, i);
    } else {
      var before := curve[..|curve| - 1];
      assert forall n :: 1 <= n <= |before| ==> before[..n] == curve[..n];
      NoPairDeeper(before, i, j);
    }
  }

  lemma {:induction false} SomePairAsDeep(curve: seq<real>)
    ensures Fall(curve) == 0.0 || exists i, j :: Pair(curve, i, j) && Fall(curve) == Change(curve[i], curve[j])
  {
    hide Change;
    if Fall(curve) != 0.0 {
      var before := curve[..|curve| - 1];
      if Fall(curve) == Fall(before) {
        SomePairAsDeep(before);
        var i, j :| Pair(before, i, j) && Fall(before) == Change(before[i], before[j]);
        assert Pair(curve, i, j) && before[i] == curve[i] && before[j] == curve[j];
      } else {
        PeakBounds(curve);
        var top :| 0 <= top < |curve| && curve[top] == Peak(curve);
        assert Pair(curve, top, |curve| - 1);
      }
    }
  }

  /** The pass is the minimum over pairs when each value lies deepest below the peak of the values up to it. */
  lemma PairsByPeaks(curve: seq<real>)
    requires forall n :: 1 <= n <= |curve| ==> PeakDeepest(curve[..n])
    ensures MinimumOverPairs(curve)
  {
    hide Fall, Change, PeakDeepest;
    forall i, j | Pair(curve, i, j)
      ensures Fall(curve) <= Change(curve[i], curve[j])
    {
      NoPairDeeper(curve, i, j);
    }
    SomePairAsDeep(curve);
  }

  lemma NonNegativePeak(curve: seq<real>)
    requires NonNegativeCurve(curve)
    ensures PeakDeepest(curve)
  {
    hide Change, Peak;
    if curve != [] {
      PeakBounds(curve);
      forall i | 0 <= i < |curve| && 0.0 < curve[i]
        ensures Change(Peak(curve), curve[|curve| - 1]) <= Change(curve[i], curve[|curve| - 1])
      {
        DeeperFromHigher(curve[i], Peak(curve), curve[|curve| - 1]);
      }
    }
  }

  lemma {:induction false} FallBounded(curve: seq<real>)
    requires NonNegativeCurve(curve)
    ensures -1.0 <= Fall(curve) <= 0.0
    ensures (forall i :: 0 <= i < |curve| ==> 0.0 < curve[i]) ==> -1.0 < Fall(curve)
  {
    hide Change, Peak;
    if curve != [] {
      var before := curve[..|curve| - 1];
      FallBounded(before);
      if Peak(curve) > 0.0 {
        DeeperFromHigher(Peak(curve), Peak(curve), curve[|curve| - 1]);
      }
    }
  }

  /** For non-negative curves the single pass is the minimum over all pairs i <= j of (v_j - v_i) / v_i. */
  lemma FallIsMinimumOverPairs(curve: seq<real>)
    requires NonNegativeCurve(curve)
    ensures MinimumOverPairs(curve)
    ensures -1.0 <= Fall(curve) <= 0.0
    ensures (forall i :: 0 <= i < |curve| ==> 0.0 < curve[i]) ==> -1.0 < Fall(curve)
  {
    hide Fall, PeakDeepest, MinimumOverPairs;
    forall n | 1 <= n <= |curve|
      ensures PeakDeepest(curve[..n])
    {
      NonNegativePeak(curve[..n]);
    }
    PairsByPeaks(curve);
    FallBounded(curve);
  }

  /** With a single positive value the peak is that value, and negative values do no harm. */
  lemma SinglePositive(curve: seq<real>, v: real)
    requires forall i :: 0 <= i < |curve| && 0.0 < curve[i] ==> curve[i] == v
    ensures MinimumOverPairs(curve)
  {
    hide Fall, Change, Peak, MinimumOverPairs;
    forall n | 1 <= n <= |curve|
      ensures PeakDeepest(curve[..n])
    {
      PeakBounds(curve[..n]);
    }
    PairsByPeaks(curve);
  }

  lemma AllTheSame(curve: seq<real>, values: iset<real>)
    requires forall x :: x in curve ==> x in values
    requires forall x, y :: x in values && y in values && 0.0 < x && 0.0 < y ==> x == y
    ensures MinimumOverPairs(curve)
  {
    hide MinimumOverPairs;
    if i :| 0 <= i < |curve| && 0.0 < curve[i] {
      assert forall j :: 0 <= j < |curve| ==> curve[j] in curve;
      SinglePositive(curve, curve[i]);
    } else {
      SinglePositive(curve, 0.0);
    }
  }

  /** A negative value after two different positive ones falls deeper below the lower of them than below the peak. */
  lemma NegativeEquityBreaksPairs(low: real, high: real, to: real)
    requires 0.0 < low < high && to < 0.0
    ensures !MinimumOverPairs([low, high, to])
  {
    var curve := [low, high, to];
    assert curve[..2] == [low, high] && [low, high][..1] == [low] && [low][..0] == [];
    assert Peak([low]) == low && Peak([low, high]) == high && Peak(curve) == high;
    assert Fall([low]) == 0.0;
    assert Fall([low, high]) == 0.0;
    ShallowerFromHigher(low, high, to);
    hide Change;
    assert Fall(curve) > Change(low, to);
    assert Pair(curve, 0, 2);
  }

  lemma ShallowerFromHigher(low: real, high: real, to: real)
    requires 0.0 < low < high && to < 0.0
    ensures Change(low, to) < Change(high, to) && Change(low, to) < 0.0
  {
    ChangeIsRatio(low, to);
    ChangeIsRatio(high, to);
    hide Change;
    DeeperBelowLower(low, high, to, to / low, to / high);
  }

  lemma DeeperBelowLower(low: real, high: real, to: real, x: real, y: real)
    requires 0.0 < low < high && to < 0.0 && x * low == to && y * high == to
    ensures x < y && x < 0.0
  {
    if 0.0 <= y {
      MulMonotone(0.0, y, high);
    }
    MulStrict(low, high, -y);
    if y <= x {
      MulMonotone(y, x, low);
    }
    if 0.0 <= x {
      MulMonotone(0.0, x, low);
    }
  }

  /**
   * The pass is the minimum over pairs on every curve over a set of values if and only if the set has no negative
   * value, or at most one positive one.
   */
  lemma PairCondition(values: iset<real>)
    ensures (forall curve: seq<real> :: (forall x :: x in curve ==> x in values) ==> MinimumOverPairs(curve)) <==>
            (forall x :: x in values ==> 0.0 <= x)
              || (forall x, y :: x in values && y in values && 0.0 < x && 0.0 < y ==> x == y)
  {
    hide MinimumOverPairs;
    if forall x :: x in values ==> 0.0 <= x {
      forall curve: seq<real> | forall x :: x in curve ==> x in values
        ensures MinimumOverPairs(curve)
      {
        assert forall j :: 0 <= j < |curve| ==> curve[j] in curve;
        FallIsMinimumOverPairs(curve);
      }
    } else if forall x, y :: x in values && y in values && 0.0 < x && 0.0 < y ==> x == y {
      forall curve: seq<real> | forall x :: x in curve ==> x in values
        ensures MinimumOverPairs(curve)
      {
        AllTheSame(curve, values);
      }
    } else {
      var n :| n in values && n < 0.0;
      var x, y :| x in values && y in values && 0.0 < x && 0.0 < y && x != y;
      var low, high := if x < y then x else y, if x < y then y else x;
      NegativeEquityBreaksPairs(low, high, n);
      assert forall z :: z in [low, high, n] ==> z in values;
    }
  }
}
