/** Greedy portfolio construction under a total and a per-market cap (`recommendation_pipeline.py`). */
module Portfolio {
  import opened Money
  import opened Recommendation

  datatype Config = Config(maxPositions: int, maxPerMarket: int, minScore: real, minConfidence: real, maxWeight: real)

  /** The checks `PortfolioConfig` makes on construction. */
  predicate ValidConfig(c: Config) {
    && 1 <= c.maxPositions && 1 <= c.maxPerMarket
    && 0.0 <= c.minScore <= 100.0 && 0.0 <= c.minConfidence <= 100.0 && 0.0 < c.maxWeight <= 1.0
  }

  function MarketAt(rows: seq<RankedRow>, i: nat): (r: string)
    requires i < |rows|
  {
    rows[i].feature.daily.market
  }

  predicate Eligible(c: Config, r: RankedRow) {
    r.score >= c.minScore && r.confidence >= c.minConfidence
  }

  /** The members of `s` that lie in one market. */
  function InMarket(rows: seq<RankedRow>, s: set<nat>, market: string): (r: set<nat>) {
    set i | i in s && i < |rows| && MarketAt(rows, i) == market
  }

  /** The positions the loop picks among the first `n` rows. */
  function Picked(c: Config, rows: seq<RankedRow>, n: nat): (s: set<nat>)
    requires n <= |rows|
    ensures forall i :: i in s ==> i < n && Eligible(c, rows[i])
  {
    if n == 0 then {}
    else
      var s := Picked(c, rows, n - 1);
      if Eligible(c, rows[n - 1]) && |s| < c.maxPositions && |InMarket(rows, s, MarketAt(rows, n - 1))| < c.maxPerMarket
      then s + {n - 1} else s
  }

  // ----- The greedy choice is optimal

  /** Eligible rows only, within both caps. */
  ghost predicate Feasible(c: Config, rows: seq<RankedRow>, s: set<nat>) {
    && (forall i :: i in s ==> i < |rows| && Eligible(c, rows[i]))
    && |s| <= c.maxPositions
    && forall m :: |InMarket(rows, s, m)| <= c.maxPerMarket
  }

  function Below(s: set<nat>, n: nat): (r: set<nat>) {
    set i | i in s && i < n
  }

  /** Total score of the members of `s` among the first `n` rows. */
  function ScoreOf(rows: seq<RankedRow>, s: set<nat>, n: nat): (r: real)
    requires n <= |rows|
  {
    if n == 0 then 0.0 else ScoreOf(rows, s, n - 1) + (if n - 1 in s then rows[n - 1].score else 0.0)
  }

  lemma Cardinality<T>(a: set<T>, b: set<T>)
    requires a <= b
    ensures |a| <= |b|
  {
    assert b == a + (b - a);
  }

  lemma AddToMarket(rows: seq<RankedRow>, s: set<nat>, i: nat, market: string)
    requires i < |rows| && i !in s
    ensures InMarket(rows, s + {i}, market)
            == if MarketAt(rows, i) == market then InMarket(rows, s, market) + {i} else InMarket(rows, s, market)
  {
  }

  /** What the loop picks respects both caps. */
  lemma {:induction false} PickedIsFeasible(c: Config, rows: seq<RankedRow>, n: nat)
    requires n <= |rows| && ValidConfig(c)
    ensures Feasible(c, rows, Picked(c, rows, n))
  {
    hide InMarket, Eligible, Picked;
    PickedCount(c, rows, n);
    if n > 0 {
      PickedIsFeasible(c, rows, n - 1);
      forall m
        ensures |InMarket(rows, Picked(c, rows, n), m)| <= c.maxPerMarket
      {
        MarketAfterPick(c, rows, n, m);
      }
    } else {
      forall m
        ensures |InMarket(rows, {}, m)| == 0
      {
        NothingInMarket(rows, m);
      }
    }
  }

  lemma {:induction false} PickedCount(c: Config, rows: seq<RankedRow>, n: nat)
    requires n <= |rows| && ValidConfig(c)
    ensures |Picked(c, rows, n)| <= c.maxPositions
    ensures n == 0 ==> Picked(c, rows, n) == {}
  {
    hide InMarket, Eligible;
    if n > 0 {
      PickedCount(c, rows, n - 1);
    }
  }

  lemma NothingInMarket(rows: seq<RankedRow>, m: string)
    ensures InMarket(rows, {}, m) == {}
  {
  }

  lemma MarketAfterPick(c: Config, rows: seq<RankedRow>, n: nat, m: string)
    requires 0 < n <= |rows|
    requires |InMarket(rows, Picked(c, rows, n - 1), m)| <= c.maxPerMarket
    ensures |InMarket(rows, Picked(c, rows, n), m)| <= c.maxPerMarket
  {
    hide InMarket, Picked;
    var s := Picked(c, rows, n - 1);
    PickStep(c, rows, n);
    if Picked(c, rows, n) != s {
      AddToMarket(rows, s, n - 1, m);
      GrowsByOne(InMarket(rows, s, m), n - 1);
    }
  }

  lemma PickStep(c: Config, rows: seq<RankedRow>, n: nat)
    requires 0 < n <= |rows|
    ensures var s := Picked(c, rows, n - 1);
            Picked(c, rows, n) == s
            || (Picked(c, rows, n) == s + {n - 1} && |InMarket(rows, s, MarketAt(rows, n - 1))| < c.maxPerMarket)
  {
    hide InMarket, Eligible, MarketAt;
  }

  lemma GrowsByOne(s: set<nat>, i: nat)
    ensures |s + {i}| <= |s| + 1
  {
  }

  /** While the total cap has room, an eligible row is passed over only because its market is full. */
  lemma {:induction false} PassedOverOnlyWhenFull(c: Config, rows: seq<RankedRow>, n: nat, i: nat)
    requires i < n <= |rows| && |Picked(c, rows, n)| < c.maxPositions
    requires Eligible(c, rows[i]) && i !in Picked(c, rows, n)
    ensures |InMarket(rows, Picked(c, rows, n), MarketAt(rows, i))| >= c.maxPerMarket
  {
    var s, t := Picked(c, rows, n - 1), Picked(c, rows, n);
    Cardinality(s, t);
    if i < n - 1 {
      PassedOverOnlyWhenFull(c, rows, n - 1, i);
      assert InMarket(rows, s, MarketAt(rows, i)) <= InMarket(rows, t, MarketAt(rows, i));
      Cardinality(InMarket(rows, s, MarketAt(rows, i)), InMarket(rows, t, MarketAt(rows, i)));
    }
  }

  /** A set that is no larger in any market is no larger. */
  lemma {:induction false} NoLargerPerMarket(rows: seq<RankedRow>, a: set<nat>, b: set<nat>)
    requires (forall i :: i in a ==> i < |rows|) && (forall i :: i in b ==> i < |rows|)
    requires forall m :: |InMarket(rows, a, m)| <= |InMarket(rows, b, m)|
    ensures |a| <= |b|
    decreases |a|
  {
    if a != {} {
      var i :| i in a;
      var m := MarketAt(rows, i);
      var am, bm := InMarket(rows, a, m), InMarket(rows, b, m);
      assert i in am;
      assert a == am + (a - am) && b == bm + (b - bm);
      forall k
        ensures |InMarket(rows, a - am, k)| <= |InMarket(rows, b - bm, k)|
      {
        if k == m {
          assert InMarket(rows, a - am, k) == {} == InMarket(rows, b - bm, k);
        } else {
          assert InMarket(rows, a - am, k) == InMarket(rows, a, k);
          assert InMarket(rows, b - bm, k) == InMarket(rows, b, k);
        }
      }
      NoLargerPerMarket(rows, a - am, b - bm);
    }
  }

  /** On every prefix the loop has picked at least as many rows as any feasible set has there. */
  lemma PrefixDominance(c: Config, rows: seq<RankedRow>, t: set<nat>, n: nat)
    requires n <= |rows| && Feasible(c, rows, t)
    ensures |Below(t, n)| <= |Picked(c, rows, n)|
  {
    var s, u := Picked(c, rows, n), Below(t, n);
    if |s| >= c.maxPositions {
      Cardinality(u, t);
    } else {
      forall m
        ensures |InMarket(rows, u, m)| <= |InMarket(rows, s, m)|
      {
        var um, sm := InMarket(rows, u, m), InMarket(rows, s, m);
        if um <= sm {
          Cardinality(um, sm);
        } else {
          var i :| i in um && i !in sm;
          PassedOverOnlyWhenFull(c, rows, n, i);
          Cardinality(um, InMarket(rows, t, m));
        }
      }
      NoLargerPerMarket(rows, u, s);
    }
  }

  lemma PickedBelow(c: Config, rows: seq<RankedRow>, n: nat)
    requires n < |rows|
    ensures |Picked(c, rows, n + 1)| == |Picked(c, rows, n)| + (if n in Picked(c, rows, n + 1) then 1 else 0)
    ensures n !in Picked(c, rows, n + 1) ==> Picked(c, rows, n + 1) == Picked(c, rows, n)
  {
  }

  lemma BelowNext(t: set<nat>, n: nat)
    ensures |Below(t, n + 1)| == |Below(t, n)| + (if n in t then 1 else 0)
  {
    if n in t {
      assert Below(t, n + 1) == Below(t, n) + {n};
    } else {
      assert Below(t, n + 1) == Below(t, n);
    }
  }

  /** The score at which the next eligible row can come at most. */
  function Level(c: Config, rows: seq<RankedRow>, n: nat): (r: real)
    requires 0 < n <= |rows|
  {
    Max(rows[n - 1].score, c.minScore)
  }

  /** `count` rows at the given score. */
  function Worth(count: int, score: real): (r: real) {
    count as real * score
  }

  lemma LeadCarries(lead: real, count: int, before: real, now: real, step: int)
    requires 0 <= count && now <= before && lead >= Worth(count, before)
    ensures lead + Worth(step, now) >= Worth(count + step, now)
  {
    MulMonotone(now, before, count as real);
    assert (count + step) as real == count as real + step as real;
    assert (count as real + step as real) * now == count as real * now + step as real * now;
  }

  function Gain(rows: seq<RankedRow>, s: set<nat>, i: nat): (r: int) {
    if i in s then 1 else 0
  }

  /** Being at least as many on every prefix of a descending list is being worth at least as much. */
  lemma {:induction false} AheadByLevel(c: Config, rows: seq<RankedRow>, t: set<nat>, n: nat)
    requires 0 < n <= |rows| && Feasible(c, rows, t) && Descending(rows)
    ensures ScoreOf(rows, Picked(c, rows, n), n) - ScoreOf(rows, t, n)
            >= Worth(|Picked(c, rows, n)| - |Below(t, n)|, Level(c, rows, n))
  {
    hide Worth, Feasible, Level, Picked, Below, Descending, ScoreOf, InMarket;
    var p := Picked(c, rows, n);
    var step := Gain(rows, p, n - 1) - Gain(rows, t, n - 1);
    BelowNext(t, n - 1);
    PickedBelow(c, rows, n - 1);
    ScoreOfPicked(c, rows, n);
    StepWorth(c, rows, t, n);
    ScoreOfNext(rows, t, n);
    if n == 1 {
      NothingBelow(c, rows, t);
      LeadCarries(0.0, 0, Level(c, rows, n), Level(c, rows, n), step) by { WorthNothing(Level(c, rows, n)); }
    } else {
      AheadByLevel(c, rows, t, n - 1);
      PrefixDominance(c, rows, t, n - 1);
      LevelDescends(c, rows, n);
      LeadCarries(ScoreOf(rows, Picked(c, rows, n - 1), n - 1) - ScoreOf(rows, t, n - 1),
                  |Picked(c, rows, n - 1)| - |Below(t, n - 1)|, Level(c, rows, n - 1), Level(c, rows, n), step);
    }
  }

  lemma WorthNothing(score: real)
    ensures Worth(0, score) == 0.0 && Worth(1, score) == score && Worth(-1, score) == -score
  {
  }

  lemma NothingBelow(c: Config, rows: seq<RankedRow>, t: set<nat>)
    ensures |Below(t, 0)| == |Picked(c, rows, 0)| == 0
    ensures ScoreOf(rows, Picked(c, rows, 0), 0) == ScoreOf(rows, t, 0) == 0.0
  {
    assert Below(t, 0) == {};
  }

  lemma ScoreOfNext(rows: seq<RankedRow>, t: set<nat>, n: nat)
    requires 0 < n <= |rows|
    ensures ScoreOf(rows, t, n) == ScoreOf(rows, t, n - 1) + (if n - 1 in t then rows[n - 1].score else 0.0)
  {
  }

  lemma LevelDescends(c: Config, rows: seq<RankedRow>, n: nat)
    requires 1 < n <= |rows| && Descending(rows)
    ensures Level(c, rows, n) <= Level(c, rows, n - 1)
  {
    assert rows[n - 2].score >= rows[n - 1].score;
  }

  /** What the n-th row adds to one side or the other, it adds at its level. */
  lemma StepWorth(c: Config, rows: seq<RankedRow>, t: set<nat>, n: nat)
    requires 0 < n <= |rows| && Feasible(c, rows, t)
    ensures var p, score := Picked(c, rows, n), rows[n - 1].score;
            Worth(Gain(rows, p, n - 1) - Gain(rows, t, n - 1), Level(c, rows, n))
            == (if n - 1 in p then score else 0.0) - (if n - 1 in t then score else 0.0)
  {
    hide Worth, Picked, InMarket;
    WorthNothing(Level(c, rows, n));
    var p := Picked(c, rows, n);
    if n - 1 in p || n - 1 in t {
      assert Eligible(c, rows[n - 1]);
      assert Level(c, rows, n) == rows[n - 1].score;
    }
  }

  lemma {:induction false} ScoreOfPicked(c: Config, rows: seq<RankedRow>, n: nat)
    requires 0 < n <= |rows|
    ensures ScoreOf(rows, Picked(c, rows, n), n)
            == ScoreOf(rows, Picked(c, rows, n - 1), n - 1)
              + (if n - 1 in Picked(c, rows, n) then rows[n - 1].score else 0.0)
  {
    ScoreOfSame(rows, Picked(c, rows, n), Picked(c, rows, n - 1), n - 1);
  }

  lemma {:induction false} ScoreOfSame(rows: seq<RankedRow>, a: set<nat>, b: set<nat>, n: nat)
    requires n <= |rows| && forall i :: 0 <= i < n ==> (i in a <==> i in b)
    ensures ScoreOf(rows, a, n) == ScoreOf(rows, b, n)
  {
    if n > 0 {
      ScoreOfSame(rows, a, b, n - 1);
    }
  }

  /**
   * Of all sets of eligible rows within both caps, the picked one has the most rows, whatever the order of the rows,
   * and on rows ranked by descending score also the largest total score.
   */
  lemma GreedyIsOptimal(c: Config, rows: seq<RankedRow>, t: set<nat>)
    requires ValidConfig(c) && Feasible(c, rows, t)
    ensures Feasible(c, rows, Picked(c, rows, |rows|))
    ensures |t| <= |Picked(c, rows, |rows|)|
    ensures Descending(rows) ==> ScoreOf(rows, t, |rows|) <= ScoreOf(rows, Picked(c, rows, |rows|), |rows|)
  {
    hide Worth, Feasible, Picked, ScoreOf, Below, Descending, Level;
    PickedIsFeasible(c, rows, |rows|);
    PrefixDominance(c, rows, t, |rows|);
    BelowAll(c, rows, t);
    if Descending(rows) && rows != [] {
      AheadByLevel(c, rows, t, |rows|);
      LevelNonNegative(c, rows, |rows|);
      WorthNonNegative(|Picked(c, rows, |rows|)| - |t|, Level(c, rows, |rows|));
    } else if rows == [] {
      NothingBelow(c, rows, t);
    }
  }

  lemma BelowAll(c: Config, rows: seq<RankedRow>, t: set<nat>)
    requires Feasible(c, rows, t)
    ensures Below(t, |rows|) == t
  {
  }

  lemma LevelNonNegative(c: Config, rows: seq<RankedRow>, n: nat)
    requires 0 < n <= |rows| && ValidConfig(c)
    ensures 0.0 <= Level(c, rows, n)
  {
  }

  lemma WorthNonNegative(count: int, score: real)
    requires 0 <= count && 0.0 <= score
    ensures 0.0 <= Worth(count, score)
  {
  }
}
