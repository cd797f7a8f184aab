/**
 * Which rows a portfolio selects, and what it gives each, in terms of the rows themselves
 * (`recommendation_pipeline.py`).
 */
module PortfolioTerms {
  import opened Base
  import opened Money
  import opened Rounding
  import opened Recommendation
  import opened Portfolio
  import opened TargetWeights

  /** One over the volatility, of which an unknown or smaller one counts as a hundredth. */
  predicate Inverse(r: RankedRow, raw: real) {
    var v := r.feature.volatility;
    raw * (if v.Some? && 0.01 <= v.value then v.value else 0.01) == 1.0
  }

  lemma InverseOf(r: RankedRow)
    ensures Inverse(r, RawWeight(r))
  {
    assert 1.0 / Volatility(r) * Volatility(r) == 1.0;
  }

  /** How many of the first `n` rows are selected. */
  function SelectedIn(out: seq<RankedRow>, n: nat): (count: nat)
    requires n <= |out|
  {
    if n == 0 then 0 else SelectedIn(out, n - 1) + (if out[n - 1].selected then 1 else 0)
  }

  /** How many of the first `n` rows of a market are selected. */
  function SelectedFrom(out: seq<RankedRow>, market: string, n: nat): (count: nat)
    requires n <= |out|
  {
    if n == 0 then 0
    else
      var r := out[n - 1];
      SelectedFrom(out, market, n - 1) + (if r.selected && r.feature.daily.market == market then 1 else 0)
  }

  /** `total` adds up `raws` over the selected ones among the first `n` rows. */
  function Total(out: seq<RankedRow>, raws: seq<real>, n: nat): (total: real)
    requires n <= |out| == |raws|
  {
    if n == 0 then 0.0 else Total(out, raws, n - 1) + (if out[n - 1].selected then raws[n - 1] else 0.0)
  }

  predicate IsPart(share: real, total: real, raw: real) {
    share * total == raw
  }

  /** The row's part of the total, but no more than the cap, to six places. */
  ghost predicate Weighs(c: Config, raw: real, total: real, weight: real) {
    exists share ::
      IsPart(share, total, raw) && Rounded(weight, if share < c.maxWeight then share else c.maxWeight, 1000000.0)
  }

  /**
   * A row is selected exactly when it reaches both thresholds and fewer than the cap are selected before it, in all and
   * of its market. It is then numbered among the selected and weighs its part of the inverse volatilities; any other
   * row weighs nothing. Nothing else of a row changes.
   */
  ghost predicate PlacedAs(c: Config, r: RankedRow, out: seq<RankedRow>, raws: seq<real>, i: nat)
    requires i < |out| == |raws|
  {
    var now := out[i];
    && now == r.(selected := now.selected, portfolioRank := now.portfolioRank, targetWeight := now.targetWeight)
    && (now.selected <==>
        && c.minScore <= r.score && c.minConfidence <= r.confidence
        && SelectedIn(out, i) < c.maxPositions && SelectedFrom(out, r.feature.daily.market, i) < c.maxPerMarket)
    && (if now.selected then
          now.portfolioRank == Some(SelectedIn(out, i) + 1)
          && Weighs(c, raws[i], Total(out, raws, |out|), now.targetWeight)
        else now.portfolioRank == None && now.targetWeight == 0.0)
  }

  lemma WeightAsStated(c: Config, r: RankedRow, total: real)
    requires total != 0.0
    ensures Weighs(c, RawWeight(r), total, Weight(c, r, total))
  {
    hide RawWeight, Round6, Rounded;
    var share := Share(RawWeight(r), total);
    assert IsPart(share, total, RawWeight(r));
    RoundsAsStated(Min(share, c.maxWeight));
  }

  function Raws(rows: seq<RankedRow>): (raws: seq<real>) {
    seq(|rows|, i requires 0 <= i < |rows| => RawWeight(rows[i]))
  }

  /** The selected flags are those of the picked positions. */
  lemma SelectedArePicked(c: Config, rows: seq<RankedRow>, i: nat)
    requires ValidConfig(c) && i < |rows|
    ensures Constructed(c, rows)[i].selected <==> i in Picked(c, rows, |rows|)
    ensures Constructed(c, rows)[i].feature == rows[i].feature
  {
    RawTotalPositive(rows, Picked(c, rows, |rows|), |rows|);
    hide Picked, RawTotal, RawWeight, Weight;
  }

  lemma {:induction false} SelectedCounts(c: Config, rows: seq<RankedRow>, n: nat)
    requires ValidConfig(c) && n <= |rows|
    ensures var out, s := Constructed(c, rows), Picked(c, rows, |rows|);
            && SelectedIn(out, n) == |Below(s, n)|
            && Total(out, Raws(rows), n) == RawTotal(rows, s, n)
            && forall m :: SelectedFrom(out, m, n) == |InMarket(rows, Below(s, n), m)|
  {
    hide Picked, Constructed, RawWeight;
    var out, s := Constructed(c, rows), Picked(c, rows, |rows|);
    if n == 0 {
      assert Below(s, 0) == {};
      assert forall m :: InMarket(rows, {}, m) == {};
    } else {
      SelectedCounts(c, rows, n - 1);
      SelectedArePicked(c, rows, n - 1);
      BelowNext(s, n - 1);
      forall m
        ensures SelectedFrom(out, m, n) == |InMarket(rows, Below(s, n), m)|
      {
        OneMoreInMarket(rows, s, n - 1, m);
      }
    }
  }

  lemma OneMoreInMarket(rows: seq<RankedRow>, s: set<nat>, n: nat, m: string)
    requires n < |rows|
    ensures |InMarket(rows, Below(s, n + 1), m)|
            == |InMarket(rows, Below(s, n), m)| + (if n in s && rows[n].feature.daily.market == m then 1 else 0)
  {
    hide InMarket;
    if n in s {
      assert Below(s, n + 1) == Below(s, n) + {n};
      AddToMarket(rows, Below(s, n), n, m);
      NotYetInMarket(rows, Below(s, n), n, m);
    } else {
      assert Below(s, n + 1) == Below(s, n);
    }
  }

  lemma NotYetInMarket(rows: seq<RankedRow>, s: set<nat>, n: nat, m: string)
    requires n !in s
    ensures |InMarket(rows, s, m) + {n}| == |InMarket(rows, s, m)| + 1
  {
  }

  /** What is picked among the first rows is the part of it below. */
  lemma {:induction false} PickedPrefix(c: Config, rows: seq<RankedRow>, i: nat, n: nat)
    requires i <= n <= |rows|
    ensures Below(Picked(c, rows, n), i) == Picked(c, rows, i)
    decreases n
  {
    hide InMarket, Eligible;
    if i < n {
      PickedPrefix(c, rows, i, n - 1);
    }
  }

  lemma PickedNext(c: Config, rows: seq<RankedRow>, i: nat)
    requires i < |rows|
    ensures var s := Picked(c, rows, i);
            i in Picked(c, rows, |rows|) <==>
            && c.minScore <= rows[i].score && c.minConfidence <= rows[i].confidence
            && |s| < c.maxPositions && |InMarket(rows, s, rows[i].feature.daily.market)| < c.maxPerMarket
  {
    PickedPrefix(c, rows, i + 1, |rows|);
    hide InMarket;
    assert i in Below(Picked(c, rows, |rows|), i + 1) <==> i in Picked(c, rows, |rows|);
  }

  /** Every row of a portfolio, at any ranking. */
  lemma ConstructedExactly(c: Config, rows: seq<RankedRow>)
    requires ValidConfig(c)
    ensures var out := Constructed(c, rows);
            exists raws: seq<real> ::
              && |raws| == |rows| == |out|
              && (forall i :: 0 <= i < |rows| ==> Inverse(rows[i], raws[i]) && PlacedAs(c, rows[i], out, raws, i))
  {
    hide Picked, Constructed, Raws, Inverse, PlacedAs;
    var raws := Raws(rows);
    forall i | 0 <= i < |rows|
      ensures |raws| == |rows| && Inverse(rows[i], raws[i]) && PlacedAs(c, rows[i], Constructed(c, rows), raws, i)
    {
      RowPlaced(c, rows, i);
    }
    assert |raws| == |rows| by { RawsLength(rows); }
  }

  lemma RawsLength(rows: seq<RankedRow>)
    ensures |Raws(rows)| == |rows|
  {
  }

  lemma RowPlaced(c: Config, rows: seq<RankedRow>, i: nat)
    requires ValidConfig(c) && i < |rows|
    ensures |Raws(rows)| == |rows| && Inverse(rows[i], Raws(rows)[i])
    ensures PlacedAs(c, rows[i], Constructed(c, rows), Raws(rows), i)
  {
    hide Picked, RawWeight, RawTotal, Weighs, Weight, Inverse, SelectedIn, SelectedFrom, Total;
    var s := Picked(c, rows, |rows|);
    InverseOf(rows[i]);
    SelectedArePicked(c, rows, i);
    SelectedCounts(c, rows, i);
    SelectedCounts(c, rows, |rows|);
    PickedPrefix(c, rows, i, |rows|);
    PickedNext(c, rows, i);
    if i in s {
      RawTotalPositive(rows, s, |rows|);
      WeightAsStated(c, rows[i], RawTotal(rows, s, |rows|));
    }
  }
}
