/** Rows of the recommendation pipeline, and the multi-factor ranking (`recommendation.py`). */
module Recommendation {
  import opened Base
  import opened Money
  import opened Rounding
  import opened Sorting

  /** Factor scores that a row brings along. */
  datatype Factors = Factors(
    fundamental: Option<real>, value: Option<real>, quality: Option<real>, sentiment: Option<real>)

  /** A daily observation; absent fields are None. */
  datatype DailyRow = DailyRow(
    market: string, symbol: string, tradeDate: string, availableAt: Option<string>,
    open: Option<real>, high: Option<real>, low: Option<real>, close: Option<real>, volume: Option<real>,
    factors: Factors)

  /** Checksums are opaque: they determine, and are determined by, what they are taken over. */
  type Checksum = seq<DailyRow>

  datatype FeatureRow = FeatureRow(
    daily: DailyRow, return1d: Option<real>, momentum: Option<real>, volatility: Option<real>,
    volumeRatio: Option<real>, checksum: Checksum)

  datatype RankedRow = RankedRow(
    feature: FeatureRow, symbol: string, score: real, rank: nat, grade: char, confidence: real, reasons: seq<string>,
    selected: bool, portfolioRank: Option<nat>, targetWeight: real)

  /** Timestamps as the code parses them. */
  datatype Instant = Aware(at: int) | Naive(at: int) | Unreadable

  /** What the code calls into and this model leaves open: timestamp parsing and the volatility of a window. */
  datatype Library = Library(parse: string -> Instant, volatility: seq<real> -> Option<real>)

  /** The factors in the order of the agent's weights. */
  const FACTORS := ["FUNDAMENTAL", "MOMENTUM", "TECHNICAL", "VALUE", "QUALITY", "SENTIMENT", "RISK"]

  /** One weight for each factor; the witness is the agent's default. */
  type Weights = w: seq<real> | |w| == 7 witness [0.25, 0.20, 0.15, 0.15, 0.10, 0.10, 0.05]

  function SumOfWeights(w: Weights, n: nat): (total: real)
    requires n <= 7
  {
    if n == 0 then 0.0 else SumOfWeights(w, n - 1) + w[n - 1]
  }

  /** What the agent asks of its weights: none negative, and a sum of one to within a millionth. */
  predicate ValidWeights(w: Weights) {
    (forall i :: 0 <= i < 7 ==> 0.0 <= w[i]) && 0.999999 <= SumOfWeights(w, 7) <= 1.000001
  }

  function Clamp(x: real): (r: real) {
    if x < 0.0 then 0.0 else if x > 100.0 then 100.0 else x
  }

  /** `_bounded_score` */
  function Bounded(value: Option<real>, inverse: bool): (r: real) {
    match value
    case None => 50.0
    case Some(x) => Round4(Clamp(50.0 + 50.0 * (if inverse then -x else x)))
  }

  /** `_score`: a factor score that is missing counts as 50. */
  function FactorScore(value: Option<real>): (score: real) {
    match value
    case None => 50.0
    case Some(x) => Clamp(x)
  }

  /** The seven factor scores of a row: three derived from its features, four brought along. */
  function Scores(f: FeatureRow): (scores: seq<real>)
    ensures |scores| == 7
  {
    var g := f.daily.factors;
    [FactorScore(g.fundamental), Bounded(f.momentum, false), Bounded(f.return1d, false), FactorScore(g.value),
     FactorScore(g.quality), FactorScore(g.sentiment), Bounded(f.volatility, true)]
  }

  /** The weighted sum of the first `n` scores. */
  function Blend(w: Weights, scores: seq<real>, n: nat): (blend: real)
    requires n <= 7 == |scores|
  {
    if n == 0 then 0.0 else Blend(w, scores, n - 1) + Product(scores[n - 1], w[n - 1])
  }

  function Score(w: Weights, f: FeatureRow): (score: real) {
    Round4(Blend(w, Scores(f), 7))
  }

  /** `grade`, of the unrounded score */
  function Grade(blend: real): (grade: char) {
    if blend >= 80.0 then 'A'
    else if blend >= 70.0 then 'B'
    else if blend >= 55.0 then 'C'
    else if blend >= 40.0 then 'D'
    else 'E'
  }

  function Max(a: real, b: real): (m: real) {
    if a > b then a else b
  }

  function Min(a: real, b: real): (m: real) {
    if a < b then a else b
  }

  function Highest(scores: seq<real>): (high: real)
    requires scores != []
  {
    if |scores| == 1 then scores[0] else Max(scores[0], Highest(scores[1..]))
  }

  function Lowest(scores: seq<real>): (low: real)
    requires scores != []
  {
    if |scores| == 1 then scores[0] else Min(scores[0], Lowest(scores[1..]))
  }

  /** Less, the further the factors lie apart; all seven are present. */
  function Confidence(f: FeatureRow): (confidence: real) {
    Round2(Clamp(100.0 - (Highest(Scores(f)) - Lowest(Scores(f))) * 0.45))
  }

  /** The factors among the first `n` that score 70 or more. */
  function Reasons(scores: seq<real>, n: nat): (reasons: seq<string>)
    requires n <= 7 == |scores|
  {
    if n == 0 then []
    else Reasons(scores, n - 1) + (if scores[n - 1] >= 70.0 then [FACTORS[n - 1]] else [])
  }

  // ----- What a score means

  /** An absent factor counts as a neutral zero. */
  function FactorOf(value: Option<real>): (r: real) {
    if value.None? then 0.0 else value.value
  }

  lemma BoundedOrder(a: Option<real>, b: Option<real>)
    requires FactorOf(a) <= FactorOf(b)
    ensures 0.0 <= Bounded(a, false) <= Bounded(b, false) <= 100.0
    ensures 0.0 <= Bounded(b, true) <= Bounded(a, true) <= 100.0
  {
    hide Round4, Clamp;
    NeutralScore();
    ClampOrder(50.0 + 50.0 * FactorOf(a), 50.0 + 50.0 * FactorOf(b));
    ClampOrder(50.0 + 50.0 * -FactorOf(b), 50.0 + 50.0 * -FactorOf(a));
  }

  lemma NeutralScore()
    ensures Round4(Clamp(50.0)) == 50.0
  {
  }

  lemma ClampOrder(x: real, y: real)
    requires x <= y
    ensures 0.0 <= Round4(Clamp(x)) <= Round4(Clamp(y)) <= 100.0
  {
    assert Round4(0.0) == 0.0 && Round4(100.0) == 100.0;
    Round4Monotone(0.0, Clamp(x));
    Round4Monotone(Clamp(x), Clamp(y));
    Round4Monotone(Clamp(y), 100.0);
  }

  lemma ScoresWithin(f: FeatureRow)
    ensures forall i :: 0 <= i < 7 ==> 0.0 <= Scores(f)[i] <= 100.0
  {
    BoundedOrder(f.momentum, f.momentum);
    BoundedOrder(f.return1d, f.return1d);
    BoundedOrder(f.volatility, f.volatility);
    hide Bounded;
  }

  lemma {:induction false} BlendWithin(w: Weights, scores: seq<real>, n: nat)
    requires n <= 7 == |scores| && forall i :: 0 <= i < 7 ==> 0.0 <= w[i] && 0.0 <= scores[i] <= 100.0
    ensures 0.0 <= Blend(w, scores, n) <= 100.0 * SumOfWeights(w, n)
  {
    hide Product;
    if n > 0 {
      BlendWithin(w, scores, n - 1);
      FactorWithin(scores[n - 1], w[n - 1]);
    }
  }

  lemma FactorWithin(score: real, weight: real)
    requires 0.0 <= score <= 100.0 && 0.0 <= weight
    ensures 0.0 <= Product(score, weight) <= 100.0 * weight
  {
    MulMonotone(0.0, score, weight);
    MulMonotone(score, 100.0, weight);
  }

  lemma RoundedScales()
    ensures Round4(0.0) == 0.0 && Round4(100.0) == 100.0 && Round4(100.0001) == 100.0001
    ensures Round2(0.0) == 0.0 && Round2(100.0) == 100.0
  {
  }

  /**
   * A score lies between 0 and 100, up to what the tolerance on the weights adds; a confidence lies between 0 and 100.
   */
  lemma ScoreBounded(w: Weights, f: FeatureRow)
    requires ValidWeights(w)
    ensures 0.0 <= Score(w, f) <= 100.0001
    ensures SumOfWeights(w, 7) <= 1.0 ==> Score(w, f) <= 100.0
    ensures 0.0 <= Confidence(f) <= 100.0
  {
    hide Scores, Blend, SumOfWeights, Round4, Round2, Highest, Lowest;
    ScoresWithin(f);
    BlendWithin(w, Scores(f), 7);
    RoundedScales();
    var blend := Blend(w, Scores(f), 7);
    Round4Monotone(0.0, blend);
    Round4Monotone(blend, if SumOfWeights(w, 7) <= 1.0 then 100.0 else 100.0001);
    var confidence := Clamp(100.0 - (Highest(Scores(f)) - Lowest(Scores(f))) * 0.45);
    Round2Monotone(0.0, confidence);
    Round2Monotone(confidence, 100.0);
  }

  lemma {:induction false} BlendMonotone(w: Weights, low: seq<real>, high: seq<real>, n: nat)
    requires n <= 7 == |low| == |high| && forall i :: 0 <= i < 7 ==> 0.0 <= w[i] && low[i] <= high[i]
    ensures Blend(w, low, n) <= Blend(w, high, n)
  {
    hide Product;
    if n > 0 {
      BlendMonotone(w, low, high, n - 1);
      ProductBetween(low[n - 1], w[n - 1], low[n - 1], high[n - 1]);
    }
  }

  /** More momentum, a higher last return, less volatility or a higher score brought along never lowers a score. */
  lemma ScoreMonotone(w: Weights, f: FeatureRow, g: FeatureRow)
    requires ValidWeights(w)
    requires FactorOf(f.momentum) <= FactorOf(g.momentum) && FactorOf(f.return1d) <= FactorOf(g.return1d)
    requires FactorOf(f.volatility) >= FactorOf(g.volatility)
    requires var low, high := f.daily.factors, g.daily.factors;
             && FactorScore(low.fundamental) <= FactorScore(high.fundamental)
             && FactorScore(low.value) <= FactorScore(high.value)
             && FactorScore(low.quality) <= FactorScore(high.quality)
             && FactorScore(low.sentiment) <= FactorScore(high.sentiment)
    ensures Score(w, f) <= Score(w, g)
  {
    BoundedOrder(f.momentum, g.momentum);
    BoundedOrder(f.return1d, g.return1d);
    BoundedOrder(g.volatility, f.volatility);
    hide Bounded, Round4, Blend, SumOfWeights;
    BlendMonotone(w, Scores(f), Scores(g), 7);
    Round4Monotone(Blend(w, Scores(f), 7), Blend(w, Scores(g), 7));
  }

  /** `score` refuses a row that is not available yet, an unreadable timestamp, and a blank symbol. */
  predicate Scorable(lib: Library, decision: string, f: FeatureRow) {
    var available := GetText(f.daily.availableAt);
    && (decision != "" && available != "" ==>
          && !lib.parse(decision).Unreadable? && !lib.parse(available).Unreadable?
          && lib.parse(available).at <= lib.parse(decision).at)
    && Strip(f.daily.symbol) != ""
  }

  function GetText(t: Option<string>): (r: string) {
    if t.None? then "" else t.value
  }

  function ScoredRow(w: Weights, f: FeatureRow): (r: RankedRow) {
    RankedRow(f, Strip(f.daily.symbol), Score(w, f), 0, Grade(Blend(w, Scores(f), 7)), Confidence(f),
              Reasons(Scores(f), 7), false, None, 0.0)
  }

  /** Descending score, then symbol. */
  predicate RankLe(a: RankedRow, b: RankedRow) {
    if a.score != b.score then a.score > b.score else StringLe(a.symbol, b.symbol)
  }

  lemma RankLeIsPreorder()
    ensures TotalPreorder(RankLe)
  {
    forall a: RankedRow, b: RankedRow
      ensures RankLe(a, b) || RankLe(b, a)
    {
      StringLeTotal(a.symbol, b.symbol);
    }
    forall a: RankedRow, b: RankedRow, c: RankedRow | RankLe(a, b) && RankLe(b, c)
      ensures RankLe(a, c)
    {
      if a.score == b.score == c.score {
        StringLeTransitive(a.symbol, b.symbol, c.symbol);
      }
    }
  }

  function ScoredRows(lib: Library, w: Weights, decision: string, rows: seq<FeatureRow>): (r: seq<RankedRow>) {
    if rows == [] then []
    else
      ScoredRows(lib, w, decision, rows[..|rows| - 1])
      + (if Scorable(lib, decision, rows[|rows| - 1]) then [ScoredRow(w, rows[|rows| - 1])] else [])
  }

  function Numbered(rows: seq<RankedRow>): (r: seq<RankedRow>) {
    seq(|rows|, i requires 0 <= i < |rows| => rows[i].(rank := i + 1))
  }

  function Ranked(lib: Library, w: Weights, decision: string, rows: seq<FeatureRow>): (r: seq<RankedRow>) {
    Numbered(Sort(ScoredRows(lib, w, decision, rows), RankLe))
  }

  /** `rank` */
  method Rank(lib: Library, w: Weights, decision: string, rows: seq<FeatureRow>) returns (ranked: seq<RankedRow>)
    ensures ranked == Ranked(lib, w, decision, rows)
  {
    var results: seq<RankedRow> := [];
    for i := 0 to |rows|
      invariant results == ScoredRows(lib, w, decision, rows[..i])
    {
      assert rows[..i + 1][..i] == rows[..i];
      if Scorable(lib, decision, rows[i]) {
        results := results + [ScoredRow(w, rows[i])];
      }
    }
    assert rows[..|rows|] == rows;
    results := Sort(results, RankLe);
    ranked := [];
    for i := 0 to |results|
      invariant |ranked| == i && forall k :: 0 <= k < i ==> ranked[k] == results[k].(rank := k + 1)
    {
      ranked := ranked + [results[i].(rank := i + 1)];
    }
  }

  predicate Descending(rows: seq<RankedRow>) {
    forall i, j :: 0 <= i < j < |rows| ==> rows[i].score >= rows[j].score
  }

  /** The ranking is in descending score and numbered from one, and ranks exactly the scorable rows. */
  lemma RankedDescends(lib: Library, w: Weights, decision: string, rows: seq<FeatureRow>)
    ensures var ranked := Ranked(lib, w, decision, rows);
            && Descending(ranked)
            && (forall i :: 0 <= i < |ranked| ==> ranked[i].rank == i + 1)
            && |ranked| == |ScoredRows(lib, w, decision, rows)|
            && multiset(Unnumbered(ranked)) == multiset(ScoredRows(lib, w, decision, rows))
  {
    RankLeIsPreorder();
    var scored := ScoredRows(lib, w, decision, rows);
    SortSorts(scored, RankLe);
    SortElements(scored, RankLe);
    var sorted := Sort(scored, RankLe);
    NotNumberedYet(lib, w, decision, rows);
    assert Unnumbered(Numbered(sorted)) == sorted by {
      forall i | 0 <= i < |sorted|
        ensures sorted[i].rank == 0
      {
        assert sorted[i] in sorted;
      }
    }
  }

  function Unnumbered(rows: seq<RankedRow>): (r: seq<RankedRow>) {
    seq(|rows|, i requires 0 <= i < |rows| => rows[i].(rank := 0))
  }

  lemma {:induction false} NotNumberedYet(lib: Library, w: Weights, decision: string, rows: seq<FeatureRow>)
    ensures forall r :: r in ScoredRows(lib, w, decision, rows) ==> r.rank == 0
  {
    if rows != [] {
      NotNumberedYet(lib, w, decision, rows[..|rows| - 1]);
    }
  }
}
