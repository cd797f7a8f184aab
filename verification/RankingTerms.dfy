/** What each ranked row says, in terms of its factors and the weights (`recommendation.py`). */
module RankingTerms {
  import opened Base
  import opened Money
  import opened Rounding
  import opened Sorting
  import opened Recommendation

  // ----- The seven scores

  /** `score` is `x` brought into 0 to 100. */
  predicate Within100(x: real, score: real) {
    score == if x < 0.0 then 0.0 else if 100.0 < x then 100.0 else x
  }

  /** A factor score brought along: absent ones count as 50. */
  predicate Brought(value: Option<real>, score: real) {
    if value.None? then score == 50.0 else Within100(value.value, score)
  }

  /** A score derived from a feature: 50, and 50 more for each unit of it, to four places. */
  ghost predicate Derived(value: Option<real>, score: real) {
    if value.None? then score == 50.0
    else exists exact :: Within100(50.0 + 50.0 * value.value, exact) && Rounded(score, exact, 10000.0)
  }

  function Negative(value: Option<real>): (r: Option<real>) {
    if value.None? then None else Some(-value.value)
  }

  /** The scores of a row, in the order of the weights. */
  ghost predicate Scored(f: FeatureRow, s: seq<real>) {
    var g := f.daily.factors;
    && |s| == 7
    && Brought(g.fundamental, s[0]) && Derived(f.momentum, s[1]) && Derived(f.return1d, s[2]) && Brought(g.value, s[3])
    && Brought(g.quality, s[4]) && Brought(g.sentiment, s[5]) && Derived(Negative(f.volatility), s[6])
  }

  lemma DerivedAsStated(value: Option<real>, inverse: bool)
    ensures Derived(if inverse then Negative(value) else value, Bounded(value, inverse))
  {
    if value.Some? {
      var x := 50.0 + 50.0 * (if inverse then -value.value else value.value);
      RoundsAsStated(Clamp(x));
      assert Within100(x, Clamp(x));
    }
    hide Rounded, Round4;
  }

  lemma ScoresAsStated(f: FeatureRow)
    ensures Scored(f, Scores(f))
  {
    DerivedAsStated(f.momentum, false);
    DerivedAsStated(f.return1d, false);
    DerivedAsStated(f.volatility, true);
    hide Bounded, Derived;
  }

  // ----- What is made of them

  ghost predicate Graded(blend: real, grade: char) {
    && (grade == 'A' <==> 80.0 <= blend) && (grade == 'B' <==> 70.0 <= blend < 80.0)
    && (grade == 'C' <==> 55.0 <= blend < 70.0) && (grade == 'D' <==> 40.0 <= blend < 55.0)
    && (grade == 'E' <==> blend < 40.0)
  }

  function Named(score: real, name: string): (names: seq<string>) {
    if 70.0 <= score then [name] else []
  }

  /** The names of the scores from 70 on, in the order of the weights. */
  predicate Explained(s: seq<real>, reasons: seq<string>)
    requires |s| == 7
  {
    reasons == Named(s[0], "FUNDAMENTAL") + Named(s[1], "MOMENTUM") + Named(s[2], "TECHNICAL") + Named(s[3], "VALUE")
               + Named(s[4], "QUALITY") + Named(s[5], "SENTIMENT") + Named(s[6], "RISK")
  }

  /** The largest distance between two of the scores. */
  predicate Spread(s: seq<real>, spread: real) {
    && (forall i, j :: 0 <= i < |s| && 0 <= j < |s| ==> s[i] - s[j] <= spread)
    && exists i, j :: 0 <= i < |s| && 0 <= j < |s| && s[i] - s[j] == spread
  }

  ghost predicate Confident(s: seq<real>, confidence: real) {
    exists spread :: Spread(s, spread) && Rounded(confidence, 100.0 - 0.45 * spread, 100.0)
  }

  /**
   * Score and grade are those of the weighted sum of the scores, the score to four places; the reasons are the names of
   * the high scores; and the confidence is 100 less 0.45 for each point the scores lie apart, to two places.
   */
  ghost predicate RowMeans(w: Weights, f: FeatureRow, r: RankedRow) {
    exists s :: Scored(f, s) && MadeOf(w, s, r)
  }

  function Weighted(w: Weights, s: seq<real>): (sum: real)
    requires |s| == 7
  {
    s[0] * w[0] + s[1] * w[1] + s[2] * w[2] + s[3] * w[3] + s[4] * w[4] + s[5] * w[5] + s[6] * w[6]
  }

  ghost predicate MadeOf(w: Weights, s: seq<real>, r: RankedRow)
    requires |s| == 7
  {
    var blend := Weighted(w, s);
    && Rounded(r.score, blend, 10000.0) && Graded(blend, r.grade)
    && Explained(s, r.reasons) && Confident(s, r.confidence)
  }

  lemma BlendAsStated(w: Weights, s: seq<real>)
    requires |s| == 7
    ensures Blend(w, s, 7) == Weighted(w, s)
  {
    assert Blend(w, s, 1) == Product(s[0], w[0]);
    assert Blend(w, s, 2) == Product(s[0], w[0]) + Product(s[1], w[1]);
    assert Blend(w, s, 4) == Blend(w, s, 2) + Product(s[2], w[2]) + Product(s[3], w[3]);
    assert Blend(w, s, 6) == Blend(w, s, 4) + Product(s[4], w[4]) + Product(s[5], w[5]);
    hide Blend;
  }

  lemma ReasonsAsStated(s: seq<real>)
    requires |s| == 7
    ensures Explained(s, Reasons(s, 7))
  {
    FactorNames();
    ReasonsNext(s, 0);
    ReasonsNext(s, 1);
    ReasonsNext(s, 2);
    ReasonsNext(s, 3);
    ReasonsNext(s, 4);
    ReasonsNext(s, 5);
    ReasonsNext(s, 6);
    assert Reasons(s, 0) == [];
    hide Reasons, Named;
    assert [] + Named(s[0], "FUNDAMENTAL") == Named(s[0], "FUNDAMENTAL");
  }

  lemma FactorNames()
    ensures FACTORS[0] == "FUNDAMENTAL" && FACTORS[1] == "MOMENTUM" && FACTORS[2] == "TECHNICAL"
            && FACTORS[3] == "VALUE"
    ensures FACTORS[4] == "QUALITY" && FACTORS[5] == "SENTIMENT" && FACTORS[6] == "RISK"
  {
  }

  lemma ReasonsNext(s: seq<real>, n: nat)
    requires n < 7 == |s|
    ensures Reasons(s, n + 1) == Reasons(s, n) + Named(s[n], FACTORS[n])
  {
  }

  lemma {:induction false} HighestIsMaximum(s: seq<real>) returns (i: nat)
    requires s != []
    ensures i < |s| && Highest(s) == s[i] && forall k :: 0 <= k < |s| ==> s[k] <= Highest(s)
  {
    if |s| == 1 {
      i := 0;
    } else {
      var j := HighestIsMaximum(s[1..]);
      i := if s[0] > Highest(s[1..]) then 0 else j + 1;
      assert forall k :: 0 < k < |s| ==> s[k] == s[1..][k - 1];
    }
  }

  lemma {:induction false} LowestIsMinimum(s: seq<real>) returns (i: nat)
    requires s != []
    ensures i < |s| && Lowest(s) == s[i] && forall k :: 0 <= k < |s| ==> Lowest(s) <= s[k]
  {
    if |s| == 1 {
      i := 0;
    } else {
      var j := LowestIsMinimum(s[1..]);
      i := if s[0] < Lowest(s[1..]) then 0 else j + 1;
      assert forall k :: 0 < k < |s| ==> s[k] == s[1..][k - 1];
    }
  }

  lemma ConfidenceAsStated(f: FeatureRow)
    ensures Confident(Scores(f), Confidence(f))
  {
    hide Scores, Round2, Rounded;
    ScoresWithin(f);
    var s := Scores(f);
    var i := HighestIsMaximum(s);
    var j := LowestIsMinimum(s);
    var spread := Highest(s) - Lowest(s);
    assert Spread(s, spread);
    RoundsAsStated(100.0 - 0.45 * spread);
    assert Clamp(100.0 - spread * 0.45) == 100.0 - 0.45 * spread;
  }

  lemma ScoredRowMeans(w: Weights, f: FeatureRow)
    ensures RowMeans(w, f, ScoredRow(w, f))
  {
    hide Scores, Scored, Blend, Reasons, Explained, Confidence, Confident, Rounded, Round4, Weighted;
    ScoresAsStated(f);
    var s := Scores(f);
    BlendAsStated(w, s);
    RoundsAsStated(Blend(w, s, 7));
    ReasonsAsStated(s);
    ConfidenceAsStated(f);
  }

  // ----- When a feature is a reason

  /** A derived score reaches 70 when the feature reaches 0.4, less half of the last place. */
  lemma DerivedIsHigh(value: Option<real>, score: real)
    requires Derived(value, score)
    ensures 70.0 <= score <==> value.Some? && 0.399999 <= value.value
  {
    if value.Some? {
      var exact :| Within100(50.0 + 50.0 * value.value, exact) && Rounded(score, exact, 10000.0);
      var n: int :| score == Multiple(n, 10000.0) && IsNearest(n, exact * 10000.0);
      assert 70.0 <= score <==> 700000 <= n;
      assert 700000 <= n <==> 699999.5 <= exact * 10000.0;
    }
  }

  lemma NameIn(s: seq<real>, reasons: seq<string>, name: string)
    requires |s| == 7 && Explained(s, reasons)
    ensures name in reasons <==>
            || (70.0 <= s[0] && name == "FUNDAMENTAL") || (70.0 <= s[1] && name == "MOMENTUM")
            || (70.0 <= s[2] && name == "TECHNICAL") || (70.0 <= s[3] && name == "VALUE")
            || (70.0 <= s[4] && name == "QUALITY") || (70.0 <= s[5] && name == "SENTIMENT")
            || (70.0 <= s[6] && name == "RISK")
  {
  }

  lemma DifferentNames()
    ensures "MOMENTUM" !in {"FUNDAMENTAL", "TECHNICAL", "VALUE", "QUALITY", "SENTIMENT", "RISK"}
    ensures "TECHNICAL" !in {"FUNDAMENTAL", "MOMENTUM", "VALUE", "QUALITY", "SENTIMENT", "RISK"}
    ensures "RISK" !in {"FUNDAMENTAL", "MOMENTUM", "TECHNICAL", "VALUE", "QUALITY", "SENTIMENT"}
  {
    assert "TECHNICAL"[0] == 'T' && "SENTIMENT"[0] == 'S';
  }

  /**
   * MOMENTUM is a reason from a momentum of 0.4 on, TECHNICAL from such a return on, and RISK only below no volatility.
   */
  lemma ReasonsExactly(w: Weights, f: FeatureRow, r: RankedRow)
    requires RowMeans(w, f, r)
    ensures "MOMENTUM" in r.reasons <==> f.momentum.Some? && 0.399999 <= f.momentum.value
    ensures "TECHNICAL" in r.reasons <==> f.return1d.Some? && 0.399999 <= f.return1d.value
    ensures "RISK" in r.reasons <==> f.volatility.Some? && f.volatility.value <= -0.399999
  {
    hide Derived, Brought, Rounded, Confident, Weighted, Explained, Graded;
    DifferentNames();
    var s :| Scored(f, s) && MadeOf(w, s, r);
    NameIn(s, r.reasons, "MOMENTUM");
    NameIn(s, r.reasons, "TECHNICAL");
    NameIn(s, r.reasons, "RISK");
    DerivedIsHigh(f.momentum, s[1]);
    DerivedIsHigh(f.return1d, s[2]);
    DerivedIsHigh(Negative(f.volatility), s[6]);
  }

  // ----- The whole ranking

  /**
   * The row may be ranked: it was available at the decision, when both times are given, and its symbol is not blank.
   */
  predicate Rankable(lib: Library, decision: string, f: FeatureRow) {
    var available := if f.daily.availableAt.None? then "" else f.daily.availableAt.value;
    && (decision == "" || available == ""
        || (!lib.parse(decision).Unreadable? && !lib.parse(available).Unreadable?
            && lib.parse(available).at <= lib.parse(decision).at))
    && Strip(f.daily.symbol) != ""
  }

  /** Descending score, and ascending symbol among equal scores. */
  predicate InRankOrder(a: RankedRow, b: RankedRow) {
    b.score < a.score || (b.score == a.score && StringLe(a.symbol, b.symbol))
  }

  function FeaturesOf(ranked: seq<RankedRow>): (features: seq<FeatureRow>) {
    seq(|ranked|, i requires 0 <= i < |ranked| => ranked[i].feature)
  }

  lemma {:induction false} ScoredRowsMean(lib: Library, w: Weights, decision: string, rows: seq<FeatureRow>)
    ensures var scored := ScoredRows(lib, w, decision, rows);
            && (forall r :: r in scored ==> r == ScoredRow(w, r.feature))
            && (forall f :: multiset(FeaturesOf(scored))[f] == if Rankable(lib, decision, f) then multiset(rows)[f]
                else 0)
  {
    hide ScoredRow;
    if rows == [] {
      assert FeaturesOf(ScoredRows(lib, w, decision, rows)) == [];
    } else {
      var n := |rows| - 1;
      ScoredRowsMean(lib, w, decision, rows[..n]);
      assert rows == rows[..n] + [rows[n]];
      ScoredRowOf(w, rows[n]);
      var before, scored := ScoredRows(lib, w, decision, rows[..n]), ScoredRows(lib, w, decision, rows);
      if Scorable(lib, decision, rows[n]) {
        assert FeaturesOf(scored) == FeaturesOf(before) + [rows[n]];
      } else {
        assert scored == before;
      }
    }
  }

  lemma ScoredRowOf(w: Weights, f: FeatureRow)
    ensures var r := ScoredRow(w, f); r.feature == f && r.symbol == Strip(f.daily.symbol) && r.rank == 0
  {
  }

  lemma {:induction false} InsertedFeatures(x: RankedRow, s: seq<RankedRow>)
    ensures multiset(FeaturesOf(Insert(x, s, RankLe))) == multiset(FeaturesOf(s)) + multiset{x.feature}
  {
    hide RankLe;
    if s == [] || RankLe(x, s[0]) {
      assert FeaturesOf([x] + s) == [x.feature] + FeaturesOf(s);
    } else {
      InsertedFeatures(x, s[1..]);
      assert FeaturesOf([s[0]] + Insert(x, s[1..], RankLe)) == [s[0].feature] + FeaturesOf(Insert(x, s[1..], RankLe));
      assert FeaturesOf(s) == [s[0].feature] + FeaturesOf(s[1..]);
    }
  }

  lemma {:induction false} SortedFeatures(s: seq<RankedRow>)
    ensures multiset(FeaturesOf(Sort(s, RankLe))) == multiset(FeaturesOf(s))
  {
    if s == [] {
      assert FeaturesOf(Sort(s, RankLe)) == FeaturesOf(s);
    } else {
      SortedFeatures(s[1..]);
      InsertedFeatures(s[0], Sort(s[1..], RankLe));
      assert FeaturesOf(s) == [s[0].feature] + FeaturesOf(s[1..]);
    }
  }

  lemma RanksDoNotMatter(w: Weights, f: FeatureRow, r: RankedRow, rank: nat)
    requires RowMeans(w, f, r)
    ensures RowMeans(w, f, r.(rank := rank))
  {
    hide Brought, Derived, Rounded, Explained, Confident, Weighted, Graded;
    var s :| Scored(f, s) && MadeOf(w, s, r);
    assert MadeOf(w, s, r.(rank := rank));
  }

  /** A row of the ranking in place `i`. */
  ghost predicate RankedAs(w: Weights, r: RankedRow, i: nat) {
    r.rank == i + 1 && r.symbol == Strip(r.feature.daily.symbol) && RowMeans(w, r.feature, r)
  }

  /**
   * The ranking has a row for each row that may be ranked, as often as it came, numbered from one in descending score
   * and then by symbol, and each says what its factors and the weights make of it.
   */
  lemma RankedExactly(lib: Library, w: Weights, decision: string, rows: seq<FeatureRow>)
    ensures var ranked := Ranked(lib, w, decision, rows);
            && (forall i :: 0 <= i < |ranked| ==> RankedAs(w, ranked[i], i))
            && (forall i, j :: 0 <= i < j < |ranked| ==> InRankOrder(ranked[i], ranked[j]))
            && (forall f :: multiset(FeaturesOf(ranked))[f] == if Rankable(lib, decision, f) then multiset(rows)[f]
                else 0)
  {
    hide Sort, RowMeans, ScoredRows, Rankable, ScoredRow;
    var scored, ranked := ScoredRows(lib, w, decision, rows), Ranked(lib, w, decision, rows);
    var sorted := Sort(scored, RankLe);
    ScoredRowsMean(lib, w, decision, rows);
    SortElements(scored, RankLe);
    RankLeIsPreorder();
    SortSorts(scored, RankLe);
    SortedFeatures(scored);
    assert FeaturesOf(ranked) == FeaturesOf(sorted);
    forall i | 0 <= i < |ranked|
      ensures RankedAs(w, ranked[i], i)
    {
      assert sorted[i] in sorted;
      var f := sorted[i].feature;
      ScoredRowOf(w, f);
      ScoredRowMeans(w, f);
      RanksDoNotMatter(w, f, sorted[i], i + 1);
    }
    forall i, j | 0 <= i < j < |ranked|
      ensures InRankOrder(ranked[i], ranked[j])
    {
      assert RankLe(sorted[i], sorted[j]);
    }
  }
}
