/** Inverse-volatility weights of the selected rows (`recommendation_pipeline.py`, `construct_portfolio`). */
module TargetWeights {
  import opened Base
  import opened Money
  import opened Rounding
  import opened Recommendation
  import opened Portfolio

  function Volatility(r: RankedRow): (result: real) {
    Max(if r.feature.volatility.None? then 0.01 else r.feature.volatility.value, 0.01)
  }

  function RawWeight(r: RankedRow): (result: real) {
    1.0 / Volatility(r)
  }

  /** Total raw weight of the members of `s` among the first `n` rows. */
  function RawTotal(rows: seq<RankedRow>, s: set<nat>, n: nat): (r: real)
    requires n <= |rows|
  {
    if n == 0 then 0.0 else RawTotal(rows, s, n - 1) + (if n - 1 in s then RawWeight(rows[n - 1]) else 0.0)
  }

  function Share(part: real, total: real): (r: real)
    requires total != 0.0
  {
    part / total
  }

  function Weight(c: Config, r: RankedRow, total: real): (result: real)
    requires total != 0.0
  {
    Round6(Min(Share(RawWeight(r), total), c.maxWeight))
  }

  function Unselected(r: RankedRow): (result: RankedRow) {
    r.(selected := false, portfolioRank := None, targetWeight := 0.0)
  }

  lemma {:induction false} RawTotalPositive(rows: seq<RankedRow>, s: set<nat>, n: nat)
    requires n <= |rows|
    ensures 0.0 <= RawTotal(rows, s, n)
    ensures forall i :: i in s && i < n ==> 0.0 < RawWeight(rows[i]) <= RawTotal(rows, s, n)
    ensures Below(s, n) == {} ==> RawTotal(rows, s, n) == 0.0
  {
    if n > 0 {
      RawTotalPositive(rows, s, n - 1);
      assert Below(s, n) == {} ==> Below(s, n - 1) == {} && n - 1 !in Below(s, n);
    }
  }

  /** What one row of the result is, given the picked positions. */
  function Placed(c: Config, rows: seq<RankedRow>, s: set<nat>, i: nat): (r: RankedRow)
    requires i < |rows|
  {
    var total := RawTotal(rows, s, |rows|);
    if i in s && total != 0.0 then
      rows[i].(selected := true, portfolioRank := Some(|Below(s, i)| + 1), targetWeight := Weight(c, rows[i], total))
    else Unselected(rows[i])
  }

  function Constructed(c: Config, rows: seq<RankedRow>): (out: seq<RankedRow>)
    ensures |out| == |rows|
  {
    var s := Picked(c, rows, |rows|);
    seq(|rows|, i requires 0 <= i < |rows| => Placed(c, rows, s, i))
  }

  // ----- The method

  /** `selected` lists the members of `s` in increasing order. */
  ghost predicate Lists(selected: seq<nat>, s: set<nat>) {
    && |selected| == |s|
    && (forall i :: i in selected <==> i in s)
    && (forall k :: 0 <= k < |selected| ==> |Below(s, selected[k])| == k)
  }

  lemma ListsOneMore(selected: seq<nat>, s: set<nat>, n: nat)
    requires Lists(selected, s) && forall i :: i in s ==> i < n
    ensures Lists(selected + [n], s + {n})
  {
    forall k | 0 <= k <= |selected|
      ensures |Below(s + {n}, (selected + [n])[k])| == k
    {
      var i := (selected + [n])[k];
      if k < |selected| {
        assert selected[k] in selected;
        assert Below(s + {n}, i) == Below(s, i);
      } else {
        assert Below(s + {n}, n) == s;
      }
    }
  }

  ghost predicate Counts(marketCounts: map<string, nat>, rows: seq<RankedRow>, s: set<nat>) {
    forall m :: GetOr(marketCounts, m, 0) == |InMarket(rows, s, m)|
  }

  lemma CountsOneMore(marketCounts: map<string, nat>, rows: seq<RankedRow>, s: set<nat>, n: nat)
    requires Counts(marketCounts, rows, s) && n < |rows| && n !in s
    ensures var market := MarketAt(rows, n);
            Counts(marketCounts[market := GetOr(marketCounts, market, 0) + 1], rows, s + {n})
  {
    var market := MarketAt(rows, n);
    forall m
      ensures GetOr(marketCounts[market := GetOr(marketCounts, market, 0) + 1], m, 0) == |InMarket(rows, s + {n}, m)|
    {
      AddToMarket(rows, s, n, m);
    }
  }

  lemma CountsNothing(rows: seq<RankedRow>)
    ensures Counts(map[], rows, {})
  {
    forall m
      ensures |InMarket(rows, {}, m)| == 0
    {
      NothingInMarket(rows, m);
    }
  }

  /** The picked positions in the order they are picked. */
  method Select(c: Config, rows: seq<RankedRow>) returns (selected: seq<nat>)
    requires ValidConfig(c)
    ensures Lists(selected, Picked(c, rows, |rows|))
  {
    hide Counts, Lists, InMarket, Eligible, Picked;
    selected := [];
    var marketCounts: map<string, nat> := map[];
    NothingPicked(c, rows);
    for n := 0 to |rows|
      invariant |selected| < c.maxPositions && |selected| == |Picked(c, rows, n)|
      invariant Lists(selected, Picked(c, rows, n))
      invariant Counts(marketCounts, rows, Picked(c, rows, n))
    {
      if Eligible(c, rows[n]) {
        var market := MarketAt(rows, n);
        CountAt(marketCounts, rows, Picked(c, rows, n), market);
        if GetOr(marketCounts, market, 0) < c.maxPerMarket {
          PickNext(c, rows, n);
          ListsOneMore(selected, Picked(c, rows, n), n);
          CountsOneMore(marketCounts, rows, Picked(c, rows, n), n);
          selected := selected + [n];
          marketCounts := marketCounts[market := GetOr(marketCounts, market, 0) + 1];
          if |selected| >= c.maxPositions {
            FullStaysFull(c, rows, n + 1, |rows|);
            return;
          }
        } else {
          PassOver(c, rows, n);
        }
      } else {
        PassOver(c, rows, n);
      }
    }
  }

  lemma NothingPicked(c: Config, rows: seq<RankedRow>)
    ensures Picked(c, rows, 0) == {}
    ensures Lists([], Picked(c, rows, 0)) && Counts(map[], rows, Picked(c, rows, 0))
  {
    CountsNothing(rows);
  }

  lemma PickNext(c: Config, rows: seq<RankedRow>, n: nat)
    requires n < |rows| && Eligible(c, rows[n])
    requires |Picked(c, rows, n)| < c.maxPositions
             && |InMarket(rows, Picked(c, rows, n), MarketAt(rows, n))| < c.maxPerMarket
    ensures Picked(c, rows, n + 1) == Picked(c, rows, n) + {n} && |Picked(c, rows, n + 1)| == |Picked(c, rows, n)| + 1
    ensures forall i :: i in Picked(c, rows, n) ==> i < n
    ensures n !in Picked(c, rows, n)
  {
  }

  lemma PassOver(c: Config, rows: seq<RankedRow>, n: nat)
    requires n < |rows|
    requires !Eligible(c, rows[n]) || |InMarket(rows, Picked(c, rows, n), MarketAt(rows, n))| >= c.maxPerMarket
    ensures Picked(c, rows, n + 1) == Picked(c, rows, n)
  {
  }

  lemma CountAt(marketCounts: map<string, nat>, rows: seq<RankedRow>, s: set<nat>, market: string)
    requires Counts(marketCounts, rows, s)
    ensures GetOr(marketCounts, market, 0) == |InMarket(rows, s, market)|
  {
  }

  /** Once the total cap is reached nothing more is picked, so the loop may stop. */
  lemma {:induction false} FullStaysFull(c: Config, rows: seq<RankedRow>, m: nat, n: nat)
    requires m <= n <= |rows| && |Picked(c, rows, m)| >= c.maxPositions
    ensures Picked(c, rows, n) == Picked(c, rows, m)
    decreases n
  {
    hide Picked;
    if m < n {
      FullStaysFull(c, rows, m, n - 1);
      NoRoom(c, rows, n);
    }
  }

  lemma NoRoom(c: Config, rows: seq<RankedRow>, n: nat)
    requires 0 < n <= |rows| && |Picked(c, rows, n - 1)| >= c.maxPositions
    ensures Picked(c, rows, n) == Picked(c, rows, n - 1)
  {
  }

  /** The members among the first `k` picks. */
  function Listed(selected: seq<nat>, k: nat): (r: set<nat>)
    requires k <= |selected|
  {
    set i | i in selected[..k]
  }

  lemma ListedNext(selected: seq<nat>, s: set<nat>, k: nat)
    requires Lists(selected, s) && k < |selected|
    ensures selected[k] in s && selected[k] !in Listed(selected, k)
    ensures Listed(selected, k + 1) == Listed(selected, k) + {selected[k]}
  {
    assert selected[k] in selected;
    forall j | 0 <= j < k
      ensures selected[j] != selected[k]
    {
      assert |Below(s, selected[j])| == j && |Below(s, selected[k])| == k;
    }
    assert selected[..k + 1] == selected[..k] + [selected[k]];
  }

  lemma {:induction false} RawTotalOfNothing(rows: seq<RankedRow>, n: nat)
    requires n <= |rows|
    ensures RawTotal(rows, {}, n) == 0.0
  {
    if n > 0 {
      RawTotalOfNothing(rows, n - 1);
    }
  }

  lemma {:induction false} RawTotalOneMore(rows: seq<RankedRow>, s: set<nat>, i: nat, n: nat)
    requires i !in s && i < n <= |rows|
    ensures RawTotal(rows, s + {i}, n) == RawTotal(rows, s, n) + RawWeight(rows[i])
  {
    if i == n - 1 {
      RawTotalSame(rows, s + {i}, s, n - 1);
    } else {
      RawTotalOneMore(rows, s, i, n - 1);
    }
  }

  lemma {:induction false} RawTotalSame(rows: seq<RankedRow>, a: set<nat>, b: set<nat>, n: nat)
    requires n <= |rows| && forall i :: 0 <= i < n ==> (i in a <==> i in b)
    ensures RawTotal(rows, a, n) == RawTotal(rows, b, n)
  {
    if n > 0 {
      RawTotalSame(rows, a, b, n - 1);
    }
  }

  /** Deselect every row in place. */
  method Clear(ranked: array<RankedRow>)
    modifies ranked
    ensures forall i :: 0 <= i < ranked.Length ==> ranked[i] == Unselected(old(ranked[i]))
  {
    for i := 0 to ranked.Length
      invariant forall k :: 0 <= k < i ==> ranked[k] == Unselected(old(ranked[k]))
      invariant forall k :: i <= k < ranked.Length ==> ranked[k] == old(ranked[k])
    {
      ranked[i] := Unselected(ranked[i]);
    }
  }

  method SumRawWeights(rows: seq<RankedRow>, selected: seq<nat>, ghost s: set<nat>) returns (total: real)
    requires Lists(selected, s) && forall i :: i in s ==> i < |rows|
    ensures total == RawTotal(rows, s, |rows|)
  {
    hide RawTotal, Lists, RawWeight;
    total := 0.0;
    RawTotalOfNothing(rows, |rows|);
    assert Listed(selected, 0) == {};
    for k := 0 to |selected|
      invariant total == RawTotal(rows, Listed(selected, k), |rows|)
    {
      ListedNext(selected, s, k);
      RawTotalOneMore(rows, Listed(selected, k), selected[k], |rows|);
      total := total + RawWeight(rows[selected[k]]);
    }
    ListedAll(selected, s);
  }

  lemma ListedAll(selected: seq<nat>, s: set<nat>)
    requires Lists(selected, s)
    ensures Listed(selected, |selected|) == s
  {
    assert selected[..|selected|] == selected;
  }

  /** What one selected row becomes. */
  function Chosen(c: Config, r: RankedRow, position: nat, total: real): (result: RankedRow)
    requires total != 0.0
  {
    r.(selected := true, portfolioRank := Some(position), targetWeight := Weight(c, r, total))
  }

  /** Mark the picks in place. */
  method Mark(c: Config, ranked: array<RankedRow>, selected: seq<nat>, total: real, ghost s: set<nat>)
    requires Lists(selected, s) && (forall i :: i in s ==> i < ranked.Length) && total != 0.0
    modifies ranked
    ensures forall i :: 0 <= i < ranked.Length ==>
              ranked[i] == if i in s then Chosen(c, old(ranked[i]), |Below(s, i)| + 1, total) else old(ranked[i])
  {
    hide Lists, Weight;
    for k := 0 to |selected|
      invariant forall i :: 0 <= i < ranked.Length ==>
                  ranked[i] == if i in Listed(selected, k) then Chosen(c, old(ranked[i]), |Below(s, i)| + 1, total)
                               else old(ranked[i])
    {
      ListedNext(selected, s, k);
      ListedRank(selected, s, k);
      var i := selected[k];
      ranked[i] :=
        ranked[i].(selected := true, portfolioRank := Some(k + 1), targetWeight := Weight(c, ranked[i], total));
    }
    ListedAll(selected, s);
  }

  lemma ListedRank(selected: seq<nat>, s: set<nat>, k: nat)
    requires Lists(selected, s) && k < |selected|
    ensures |Below(s, selected[k])| == k
  {
  }

  /** `construct_portfolio` on the rows of a ranking, which it updates in place. */
  method ConstructPortfolio(c: Config, ranked: array<RankedRow>)
    requires ValidConfig(c)
    modifies ranked
    ensures ranked[..] == Constructed(c, old(ranked[..]))
  {
    hide Lists, Picked, RawTotal, Weight;
    ghost var rows := ranked[..];
    Clear(ranked);
    ghost var cleared := ranked[..];
    assert forall i :: 0 <= i < |rows| ==> cleared[i] == Unselected(rows[i]);
    SameChoice(c, rows, cleared, |rows|);
    ghost var s := Picked(c, rows, |rows|);
    SameRawTotal(rows, cleared, s, |rows|);
    var selected := Select(c, ranked[..]);
    var total := SumRawWeights(ranked[..], selected, s);
    if total != 0.0 {
      Mark(c, ranked, selected, total, s);
      forall i | 0 <= i < |rows|
        ensures ranked[i] == Placed(c, rows, s, i)
      {
        SameWeight(c, rows[i], cleared[i], total);
      }
    }
  }

  lemma SameWeight(c: Config, r: RankedRow, cleared: RankedRow, total: real)
    requires cleared == Unselected(r) && total != 0.0
    ensures Weight(c, cleared, total) == Weight(c, r, total)
  {
    assert RawWeight(cleared) == RawWeight(r);
  }

  /** The fields that the method resets play no part in the choice, nor in the raw weights. */
  lemma {:induction false} SameChoice(c: Config, rows: seq<RankedRow>, cleared: seq<RankedRow>, n: nat)
    requires |rows| == |cleared| && n <= |rows|
    requires forall i :: 0 <= i < |rows| ==> cleared[i] == Unselected(rows[i])
    ensures Picked(c, cleared, n) == Picked(c, rows, n)
  {
    hide Picked;
    if n > 0 {
      SameChoice(c, rows, cleared, n - 1);
      SamePick(c, rows, cleared, n);
    }
  }

  lemma SamePick(c: Config, rows: seq<RankedRow>, cleared: seq<RankedRow>, n: nat)
    requires |rows| == |cleared| && 0 < n <= |rows|
    requires forall i :: 0 <= i < |rows| ==> cleared[i] == Unselected(rows[i])
    requires Picked(c, cleared, n - 1) == Picked(c, rows, n - 1)
    ensures Picked(c, cleared, n) == Picked(c, rows, n)
  {
    var s := Picked(c, rows, n - 1);
    assert MarketAt(cleared, n - 1) == MarketAt(rows, n - 1);
    assert InMarket(cleared, s, MarketAt(rows, n - 1)) == InMarket(rows, s, MarketAt(rows, n - 1));
  }

  lemma {:induction false} SameRawTotal(rows: seq<RankedRow>, cleared: seq<RankedRow>, s: set<nat>, n: nat)
    requires |rows| == |cleared| && n <= |rows|
    requires forall i :: 0 <= i < |rows| ==> cleared[i] == Unselected(rows[i])
    ensures RawTotal(cleared, s, n) == RawTotal(rows, s, n)
  {
    if n > 0 {
      SameRawTotal(rows, cleared, s, n - 1);
    }
  }

  // ----- What the weights promise

  lemma ShareBounds(part: real, total: real)
    requires 0.0 < part <= total
    ensures 0.0 < Share(part, total) <= 1.0
  {
    var share := Share(part, total);
    assert Product(share, total) == part;
    hide Share, Product;
    ProductZero(total);
    ProductOne(total);
    if share > 1.0 {
      ProductStrict(1.0, share, total);
    }
    if share <= 0.0 {
      ProductBetween(share, total, share, 0.0);
    }
  }

  /** A weight is never negative, and exceeds the cap by no more than the rounding of the cap itself. */
  lemma WeightBounded(c: Config, rows: seq<RankedRow>, i: nat)
    requires ValidConfig(c) && i < |rows|
    ensures var w := Constructed(c, rows)[i].targetWeight;
            && 0.0 <= w <= Round6(c.maxWeight)
            && (IsMicro(c.maxWeight) ==> w <= c.maxWeight)
            && (i !in Picked(c, rows, |rows|) ==> w == 0.0)
  {
    var s := Picked(c, rows, |rows|);
    var total := RawTotal(rows, s, |rows|);
    RawTotalPositive(rows, s, |rows|);
    hide Picked, RawTotal;
    Round6Monotone(0.0, c.maxWeight);
    assert Round6(0.0) == 0.0;
    if i in s {
      ShareBounds(RawWeight(rows[i]), total);
      var share := Min(Share(RawWeight(rows[i]), total), c.maxWeight);
      Round6Monotone(0.0, share);
      Round6Monotone(share, c.maxWeight);
    }
    if IsMicro(c.maxWeight) {
      Round6Fixed(c.maxWeight);
    }
  }

  /** A selected row with lower volatility never gets a smaller weight. */
  lemma LowerVolatilityNoSmaller(c: Config, rows: seq<RankedRow>, i: nat, j: nat)
    requires ValidConfig(c) && i < |rows| && j < |rows|
    requires i in Picked(c, rows, |rows|) && j in Picked(c, rows, |rows|)
    requires Volatility(rows[i]) <= Volatility(rows[j])
    ensures Constructed(c, rows)[i].targetWeight >= Constructed(c, rows)[j].targetWeight
  {
    var s := Picked(c, rows, |rows|);
    var total := RawTotal(rows, s, |rows|);
    RawTotalPositive(rows, s, |rows|);
    hide Picked, RawTotal;
    InverseOrder(Volatility(rows[i]), Volatility(rows[j]));
    ShareOrder(RawWeight(rows[j]), RawWeight(rows[i]), total);
    Round6Monotone(Min(Share(RawWeight(rows[j]), total), c.maxWeight),
                   Min(Share(RawWeight(rows[i]), total), c.maxWeight));
  }

  lemma InverseOrder(a: real, b: real)
    requires 0.0 < a <= b
    ensures 0.0 < 1.0 / b <= 1.0 / a
  {
    var x, y := 1.0 / a, 1.0 / b;
    assert x * a == 1.0 && y * b == 1.0;
    if x < y {
      MulStrict(x, y, a);
      MulMonotone(a, b, y);
    }
  }

  lemma ShareOrder(a: real, b: real, total: real)
    requires a <= b && 0.0 < total
    ensures Share(a, total) <= Share(b, total)
  {
    var x, y := a / total, b / total;
    assert x * total == a && y * total == b;
    if y < x {
      MulStrict(y, x, total);
    }
  }

  /** Sum of the target weights of the first `n` rows. */
  function WeightSum(rows: seq<RankedRow>, n: nat): (r: real)
    requires n <= |rows|
  {
    if n == 0 then 0.0 else WeightSum(rows, n - 1) + rows[n - 1].targetWeight
  }

  /** What rounding can add over `n` weights. */
  function Slack(n: nat): (r: real) {
    0.0000005 * n as real
  }

  /** The weights sum to at most one plus half a millionth per selected row. */
  lemma WeightsSumToOne(c: Config, rows: seq<RankedRow>)
    requires ValidConfig(c)
    ensures WeightSum(Constructed(c, rows), |rows|) <= 1.0 + Slack(|Picked(c, rows, |rows|)|)
  {
    hide RawTotal, WeightSum, Constructed, Share;
    var s := Picked(c, rows, |rows|);
    var total := RawTotal(rows, s, |rows|);
    RawTotalPositive(rows, s, |rows|);
    assert Below(s, |rows|) == s;
    hide Picked;
    if total == 0.0 {
      NoWeights(c, rows, |rows|);
    } else {
      SumWithinShares(c, rows, |rows|);
      SharesAdd(0.0, 0.0, total);
    }
  }

  lemma {:induction false} NoWeights(c: Config, rows: seq<RankedRow>, n: nat)
    requires n <= |rows| && RawTotal(rows, Picked(c, rows, |rows|), |rows|) == 0.0
    ensures WeightSum(Constructed(c, rows), n) == 0.0
  {
    hide Picked, RawTotal;
    if n > 0 {
      NoWeights(c, rows, n - 1);
    }
  }

  lemma {:induction false} SumWithinShares(c: Config, rows: seq<RankedRow>, n: nat)
    requires n <= |rows| && RawTotal(rows, Picked(c, rows, |rows|), |rows|) > 0.0
    ensures var s := Picked(c, rows, |rows|);
            WeightSum(Constructed(c, rows), n)
            <= Share(RawTotal(rows, s, n), RawTotal(rows, s, |rows|)) + Slack(|Below(s, n)|)
  {
    hide Picked, Weight, Share;
    var s := Picked(c, rows, |rows|);
    var total := RawTotal(rows, s, |rows|);
    if n == 0 {
      assert Below(s, 0) == {};
      SharesAdd(0.0, 0.0, total);
    } else {
      SumWithinShares(c, rows, n - 1);
      BelowNext(s, n - 1);
      if n - 1 in s {
        SharesAdd(RawTotal(rows, s, n - 1), RawWeight(rows[n - 1]), total);
        WeightWithinShare(c, rows[n - 1], total);
      }
    }
  }

  /** The weights sum to at most the rounded cap per selected row, and so to at most one when that many caps do. */
  lemma CapsBoundTheSum(c: Config, rows: seq<RankedRow>)
    requires ValidConfig(c)
    ensures var caps := Times(Round6(c.maxWeight), |Picked(c, rows, |rows|)|);
            WeightSum(Constructed(c, rows), |rows|) <= caps
              && (caps <= 1.0 ==> WeightSum(Constructed(c, rows), |rows|) <= 1.0)
  {
    hide WeightSum, Constructed, Round6, Times;
    assert Below(Picked(c, rows, |rows|), |rows|) == Picked(c, rows, |rows|);
    SumWithinCaps(c, rows, |rows|);
  }

  lemma {:induction false} SumWithinCaps(c: Config, rows: seq<RankedRow>, n: nat)
    requires ValidConfig(c) && n <= |rows|
    ensures WeightSum(Constructed(c, rows), n) <= Times(Round6(c.maxWeight), |Below(Picked(c, rows, |rows|), n)|)
  {
    hide Picked, Constructed, Round6, Times;
    var s := Picked(c, rows, |rows|);
    if n == 0 {
      assert Below(s, 0) == {};
      OneMore(Round6(c.maxWeight), 0);
    } else {
      SumWithinCaps(c, rows, n - 1);
      BelowNext(s, n - 1);
      WeightBounded(c, rows, n - 1);
      OneMore(Round6(c.maxWeight), |Below(s, n - 1)|);
    }
  }

  lemma SharesAdd(a: real, b: real, total: real)
    requires total != 0.0
    ensures Share(a + b, total) == Share(a, total) + Share(b, total)
    ensures Share(0.0, total) == 0.0 && Share(total, total) == 1.0
  {
    var x, y := a / total, b / total;
    assert a == x * total && b == y * total;
    assert (x + y) * total == x * total + y * total;
    DivideBack(a + b, x + y, total);
    DivideBack(0.0, 0.0, total);
    DivideBack(total, 1.0, total);
  }

  lemma WeightWithinShare(c: Config, r: RankedRow, total: real)
    requires total != 0.0
    ensures Weight(c, r, total) <= Share(RawWeight(r), total) + Slack(1)
  {
  }

  // ----- Equal rows

  /** All rows are eligible, and no more than either cap allows. */
  predicate AllFit(c: Config, rows: seq<RankedRow>) {
    |rows| <= c.maxPositions && |rows| <= c.maxPerMarket && forall i :: 0 <= i < |rows| ==> Eligible(c, rows[i])
  }

  /** The same eligible row, no more often than either cap allows. */
  predicate AllAlike(c: Config, rows: seq<RankedRow>, r: RankedRow) {
    && |rows| <= c.maxPositions && |rows| <= c.maxPerMarket
    && Eligible(c, r) && forall i :: 0 <= i < |rows| ==> rows[i] == r
  }

  lemma {:induction false} AllPicked(c: Config, rows: seq<RankedRow>, n: nat)
    requires AllFit(c, rows) && n <= |rows|
    ensures forall i: nat :: i in Picked(c, rows, n) <==> i < n
    ensures |Picked(c, rows, n)| == n
  {
    hide InMarket, Picked, Eligible;
    NothingPicked(c, rows);
    if n > 0 {
      AllPicked(c, rows, n - 1);
      FewInMarket(rows, Picked(c, rows, n - 1), MarketAt(rows, n - 1));
      PickNext(c, rows, n - 1);
    }
  }

  lemma FewInMarket(rows: seq<RankedRow>, s: set<nat>, market: string)
    ensures |InMarket(rows, s, market)| <= |s|
  {
    Cardinality(InMarket(rows, s, market), s);
  }

  lemma {:induction false} AlikeRawTotal(c: Config, rows: seq<RankedRow>, r: RankedRow, s: set<nat>, n: nat)
    requires AllAlike(c, rows, r) && n <= |rows| && forall i :: 0 <= i < |rows| ==> i in s
    ensures RawTotal(rows, s, n) == Times(RawWeight(r), n)
  {
    OneMore(RawWeight(r), 0);
    hide RawWeight, Times;
    if n > 0 {
      AlikeRawTotal(c, rows, r, s, n - 1);
      OneMore(RawWeight(r), n - 1);
    }
  }

  /** Among n alike rows each gets one n-th, capped and rounded. */
  lemma AlikeWeights(c: Config, rows: seq<RankedRow>, r: RankedRow, i: nat)
    requires AllAlike(c, rows, r) && i < |rows|
    ensures Constructed(c, rows)[i].targetWeight == Round6(Min(1.0 / |rows| as real, c.maxWeight))
  {
    hide RawTotal, RawWeight, Volatility;
    var n := |rows|;
    assert AllFit(c, rows);
    AllPicked(c, rows, n);
    var s := Picked(c, rows, n);
    hide Picked;
    AlikeRawTotal(c, rows, r, s, n);
    RawWeightPositive(r);
    hide Share, Times;
    EqualShare(RawWeight(r), n);
    assert rows[i] == r;
  }

  lemma EqualShare(raw: real, n: nat)
    requires 0.0 < raw && 0 < n
    ensures Times(raw, n) != 0.0 && Share(raw, Times(raw, n)) == 1.0 / n as real
  {
    var k := n as real;
    MulStrict(0.0, k, raw);
    assert 1.0 / k * k == 1.0;
    assert 1.0 / k * (raw * k) == raw * (1.0 / k * k);
    DivideBack(raw, 1.0 / k, raw * k);
  }

  lemma RawWeightPositive(r: RankedRow)
    ensures 0.0 < RawWeight(r)
  {
  }

  lemma {:induction false} WeightSumOfEqual(rows: seq<RankedRow>, w: real, n: nat)
    requires n <= |rows| && forall i :: 0 <= i < |rows| ==> rows[i].targetWeight == w
    ensures WeightSum(rows, n) == Times(w, n)
  {
    hide Times;
    OneMore(w, 0);
    if n > 0 {
      OneMore(w, n - 1);
      WeightSumOfEqual(rows, w, n - 1);
    }
  }

  /** What n alike rows weigh together. */
  lemma AlikeSum(c: Config, rows: seq<RankedRow>, r: RankedRow)
    requires AllAlike(c, rows, r) && rows != []
    ensures var n := |rows|; WeightSum(Constructed(c, rows), n) == Times(Round6(Min(1.0 / n as real, c.maxWeight)), n)
  {
    hide Constructed, WeightSum, Round6, AllAlike, Times;
    var w := Round6(Min(1.0 / |rows| as real, c.maxWeight));
    forall i: nat | i < |rows|
      ensures Constructed(c, rows)[i].targetWeight == w
    {
      AlikeWeights(c, rows, r, i);
    }
    WeightSumOfEqual(Constructed(c, rows), w, |rows|);
  }

  function Six(r: RankedRow): (rows: seq<RankedRow>) {
    seq(6, _ => r)
  }

  lemma SixAlike(c: Config, r: RankedRow)
    requires 6 <= c.maxPositions && 6 <= c.maxPerMarket && Eligible(c, r)
    ensures AllAlike(c, Six(r), r)
  {
  }

  lemma SixthRounded()
    ensures Round6(1.0 / 6.0) == 0.166667
  {
  }

  /** Six equal weights of 0.166667 sum to 1.000002: the weights do not always stay within one. */
  lemma SixEqualWeightsExceedOne(c: Config, r: RankedRow)
    requires ValidConfig(c) && 6 <= c.maxPositions && 6 <= c.maxPerMarket && 0.2 <= c.maxWeight && Eligible(c, r)
    ensures WeightSum(Constructed(c, Six(r)), 6) == 1.000002
  {
    hide Constructed, WeightSum, Round6, AllAlike, Eligible;
    SixAlike(c, r);
    SixthRounded();
    AlikeSum(c, Six(r), r);
  }

  // ----- Half a millionth per row cannot be improved

  /** The row with the volatility that makes this its raw weight. */
  function WithRaw(r: RankedRow, raw: real): (row: RankedRow)
    requires raw != 0.0
  {
    r.(feature := r.feature.(volatility := Some(1.0 / raw)))
  }

  /** Four rows whose shares of the total lie halfway between two millionths, and are all rounded up. */
  function Halves(r: RankedRow): (rows: seq<RankedRow>) {
    [WithRaw(r, 0.2499995), WithRaw(r, 0.2499995), WithRaw(r, 0.2499995), WithRaw(r, 0.2500015)]
  }

  lemma RawOf(r: RankedRow, raw: real)
    requires 0.0 < raw <= 1.0
    ensures RawWeight(WithRaw(r, raw)) == raw
  {
    var v := 1.0 / raw;
    assert v * raw == 1.0;
    if v < 1.0 {
      MulStrict(v, 1.0, raw);
    }
    DivideBack(1.0, raw, v);
  }

  lemma HalvesRounded()
    ensures Round6(0.2499995) == 0.25 && Round6(0.2500015) == 0.250002
  {
  }

  lemma HalvesTotal(r: RankedRow, s: set<nat>)
    requires forall i: nat :: i in s <==> i < 4
    ensures RawTotal(Halves(r), s, 4) == 1.0
    ensures forall i: nat :: i < 4 ==> RawWeight(Halves(r)[i]) == if i < 3 then 0.2499995 else 0.2500015
  {
    RawOf(r, 0.2499995);
    RawOf(r, 0.2500015);
    hide RawWeight, WithRaw;
    var rows := Halves(r);
    assert RawTotal(rows, s, 1) == 0.2499995;
    assert RawTotal(rows, s, 2) == 0.499999;
    assert RawTotal(rows, s, 3) == 0.7499985;
  }

  /** Four rows can exceed one by exactly four times half a millionth, so the bound of WeightsSumToOne is attained. */
  lemma SlackIsAttained(c: Config, r: RankedRow)
    requires ValidConfig(c) && 4 <= c.maxPositions && 4 <= c.maxPerMarket && 0.2500015 <= c.maxWeight && Eligible(c, r)
    ensures WeightSum(Constructed(c, Halves(r)), 4) == 1.0 + Slack(4)
    ensures |Picked(c, Halves(r), 4)| == 4
  {
    var rows := Halves(r);
    assert AllFit(c, rows);
    AllPicked(c, rows, 4);
    var s := Picked(c, rows, 4);
    hide Picked, AllFit, Round6;
    HalvesTotal(r, s);
    HalvesRounded();
    hide RawTotal, RawWeight, WithRaw;
    var out := Constructed(c, rows);
    assert forall i: nat :: i < 4 ==> out[i].targetWeight == if i < 3 then 0.25 else 0.250002;
    hide Constructed;
    assert WeightSum(out, 1) == 0.25;
    assert WeightSum(out, 2) == 0.5;
    assert WeightSum(out, 3) == 0.75;
  }

  /** Every weight stays within the configured cap exactly when rounding does not raise the cap itself. */
  lemma CapConditionIsExact(c: Config, r: RankedRow)
    requires ValidConfig(c) && Eligible(c, r)
    ensures Round6(c.maxWeight) <= c.maxWeight <==>
            forall rows: seq<RankedRow>, i: nat :: i < |rows| ==> Constructed(c, rows)[i].targetWeight <= c.maxWeight
  {
    hide Constructed, Round6;
    if Round6(c.maxWeight) <= c.maxWeight {
      forall rows: seq<RankedRow>, i: nat | i < |rows|
        ensures Constructed(c, rows)[i].targetWeight <= c.maxWeight
      {
        WeightBounded(c, rows, i);
      }
    } else {
      AlikeWeights(c, [r], r, 0);
      assert 1.0 / 1 as real == 1.0;
      assert Constructed(c, [r])[0].targetWeight > c.maxWeight;
    }
  }
}
