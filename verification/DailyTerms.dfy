/**
 * Which rows become candidates, which are kept, and why others are not, check by check (`recommendation_pipeline.py`).
 */
module DailyTerms {
  import opened Base
  import opened Sorting
  import opened Recommendation
  import opened Features
  import opened Portfolio
  import opened TargetWeights
  import opened DailyPipeline
  import opened FeatureTerms
  import opened RankingTerms

  // ----- Validation

  /** The row has a timestamp with a time zone, not after the decision. */
  predicate InTime(lib: Library, at: int, r: DailyRow) {
    match r.availableAt
    case None => false
    case Some(text) => text != "" && lib.parse(text).Aware? && lib.parse(text).at <= at
  }

  /** It has such a timestamp, but a later one. */
  predicate TooLate(lib: Library, at: int, r: DailyRow) {
    match r.availableAt
    case None => false
    case Some(text) => text != "" && lib.parse(text).Aware? && at < lib.parse(text).at
  }

  lemma ValidatedExactly(lib: Library, at: int, rows: seq<DailyRow>)
    ensures forall r :: r in Filter(rows, Pit(lib, at)) <==> r in rows && InTime(lib, at, r)
    ensures forall r :: r in Filter(rows, Late(lib, at)) <==> r in rows && TooLate(lib, at, r)
  {
    FilterElements(rows, Pit(lib, at));
    FilterElements(rows, Late(lib, at));
  }

  // ----- Candidates

  /** Not after the decision, both with a time zone, unless no time is given at all; and with a symbol. */
  predicate Countable(lib: Library, decision: string, f: FeatureRow) {
    && Strip(f.daily.symbol) != ""
    && match f.daily.availableAt
       case None => true
       case Some(text) =>
         lib.parse(text).Aware? && lib.parse(decision).Aware? && lib.parse(text).at <= lib.parse(decision).at
  }

  predicate SameSeries(a: FeatureRow, b: FeatureRow) {
    a.daily.market == b.daily.market && Strip(a.daily.symbol) == Strip(b.daily.symbol)
  }

  function TextOf(f: FeatureRow): (text: string) {
    if f.daily.availableAt.None? then "" else f.daily.availableAt.value
  }

  /** An earlier trade date, or the same and an earlier timestamp, as texts. */
  predicate Earlier(a: FeatureRow, b: FeatureRow) {
    if a.daily.tradeDate == b.daily.tradeDate then !StringLe(TextOf(b), TextOf(a))
    else StringLe(a.daily.tradeDate, b.daily.tradeDate)
  }

  lemma CountedMeans(lib: Library, decision: string, a: FeatureRow, b: FeatureRow)
    ensures Counted(lib, decision, a) <==> Countable(lib, decision, a)
    ensures SeriesKey(a) == SeriesKey(b) <==> SameSeries(a, b)
    ensures NoLater(a, b) <==> !Earlier(b, a)
  {
    hide Strip;
    var s, t := a.daily.tradeDate, b.daily.tradeDate;
    if s != t {
      StringLeTotal(s, t);
      if StringLe(s, t) && StringLe(t, s) {
        StringLeAntisymmetric(s, t);
      }
    }
  }

  /** The row is the latest of its series, and the first of several. */
  ghost predicate FirstLatest(lib: Library, decision: string, rows: seq<FeatureRow>, i: nat)
    requires i < |rows|
  {
    && Countable(lib, decision, rows[i])
    && forall j :: 0 <= j < |rows| && j != i && Countable(lib, decision, rows[j]) && SameSeries(rows[j], rows[i]) ==>
         if j < i then Earlier(rows[j], rows[i]) else !Earlier(rows[i], rows[j])
  }

  ghost predicate IsFirstLatest(lib: Library, decision: string, rows: seq<FeatureRow>, g: FeatureRow) {
    exists i :: 0 <= i < |rows| && rows[i] == g && FirstLatest(lib, decision, rows, i)
  }

  lemma {:induction false} UpsertMember(latest: seq<FeatureRow>, f: FeatureRow, g: FeatureRow)
    requires OnePerSeries(latest)
    ensures g in Upsert(latest, f) <==>
            if SeriesKey(g) != SeriesKey(f) then g in latest
            else if g in latest then g == f || NoLater(f, g)
            else g == f && forall h :: h in latest && SeriesKey(h) == SeriesKey(f) ==> !NoLater(f, h)
  {
    hide SeriesKey, NoLater;
    if latest != [] {
      assert latest == [latest[0]] + latest[1..];
      if SeriesKey(latest[0]) == SeriesKey(f) {
        assert forall h :: h in latest[1..] ==> SeriesKey(h) != SeriesKey(f);
      } else {
        UpsertMember(latest[1..], f, g);
      }
    }
  }

  /** The same in the terms of the loop. */
  ghost predicate Standing(lib: Library, decision: string, rows: seq<FeatureRow>, i: nat)
    requires i < |rows|
  {
    && Counted(lib, decision, rows[i])
    && forall j :: 0 <= j < |rows| && j != i && Counted(lib, decision, rows[j])
                   && SeriesKey(rows[j]) == SeriesKey(rows[i]) ==>
         if j < i then !NoLater(rows[i], rows[j]) else NoLater(rows[j], rows[i])
  }

  lemma StandingMeans(lib: Library, decision: string, rows: seq<FeatureRow>, i: nat)
    requires i < |rows|
    ensures Standing(lib, decision, rows, i) <==> FirstLatest(lib, decision, rows, i)
  {
    hide Counted, Countable, SeriesKey, SameSeries, NoLater, Earlier;
    forall j | 0 <= j < |rows|
      ensures Counted(lib, decision, rows[j]) <==> Countable(lib, decision, rows[j])
      ensures SeriesKey(rows[j]) == SeriesKey(rows[i]) <==> SameSeries(rows[j], rows[i])
      ensures NoLater(rows[j], rows[i]) <==> !Earlier(rows[i], rows[j])
      ensures NoLater(rows[i], rows[j]) <==> !Earlier(rows[j], rows[i])
    {
      CountedMeans(lib, decision, rows[j], rows[i]);
      CountedMeans(lib, decision, rows[i], rows[j]);
    }
  }

  ghost predicate IsStanding(lib: Library, decision: string, rows: seq<FeatureRow>, g: FeatureRow) {
    exists i :: 0 <= i < |rows| && rows[i] == g && Standing(lib, decision, rows, i)
  }

  /**
   * One more row: an earlier one stays standing unless the last is later, and the last stands if it is later than all.
   */
  lemma StandingNext(lib: Library, decision: string, rows: seq<FeatureRow>, g: FeatureRow)
    requires rows != []
    ensures var n := |rows| - 1;
            var before, f := rows[..n], rows[n];
            var meets := Counted(lib, decision, f) && SeriesKey(f) == SeriesKey(g);
            IsStanding(lib, decision, rows, g) <==>
            || (IsStanding(lib, decision, before, g) && (meets ==> NoLater(f, g)))
            || (g == f && Standing(lib, decision, rows, n))
  {
    hide Counted, SeriesKey, NoLater;
    var n := |rows| - 1;
    var before, f := rows[..n], rows[n];
    if i :| 0 <= i < n && before[i] == g && Standing(lib, decision, before, i) {
      assert rows[i] == g;
      if !(Counted(lib, decision, f) && SeriesKey(f) == SeriesKey(g)) || NoLater(f, g) {
        assert Standing(lib, decision, rows, i);
      }
    }
    if i :| 0 <= i < |rows| && rows[i] == g && Standing(lib, decision, rows, i) {
      if i < n {
        assert before[i] == g && Standing(lib, decision, before, i);
      }
    }
  }

  /** The last row stands when it is later than the one kept so far. */
  lemma LastStands(lib: Library, decision: string, rows: seq<FeatureRow>)
    requires rows != [] && Counted(lib, decision, rows[|rows| - 1])
    ensures var n := |rows| - 1;
            Standing(lib, decision, rows, n) <==>
            forall h :: h in LatestOf(lib, decision, rows[..n]) && SeriesKey(h) == SeriesKey(rows[n]) ==>
              !NoLater(rows[n], h)
  {
    hide Counted, SeriesKey, NoLater;
    var n := |rows| - 1;
    var f, latest := rows[n], LatestOf(lib, decision, rows[..n]);
    LatestIsLatest(lib, decision, rows[..n]);
    if Standing(lib, decision, rows, n) {
      forall h | h in latest && SeriesKey(h) == SeriesKey(f)
        ensures !NoLater(f, h)
      {
        var j :| 0 <= j < n && rows[..n][j] == h;
        assert rows[j] == h;
      }
    }
    if forall h :: h in latest && SeriesKey(h) == SeriesKey(f) ==> !NoLater(f, h) {
      forall j | 0 <= j < n && Counted(lib, decision, rows[j]) && SeriesKey(rows[j]) == SeriesKey(f)
        ensures !NoLater(f, rows[j])
      {
        assert rows[..n][j] == rows[j];
        assert Covers(latest, rows[j]);
        var k :| 0 <= k < |latest| && SeriesKey(latest[k]) == SeriesKey(rows[j]) && NoLater(rows[j], latest[k]);
        if NoLater(f, rows[j]) {
          NoLaterTransitive(f, rows[j], latest[k]);
        }
      }
    }
  }

  lemma {:induction false} LatestAreStanding(lib: Library, decision: string, rows: seq<FeatureRow>, g: FeatureRow)
    ensures g in LatestOf(lib, decision, rows) <==> IsStanding(lib, decision, rows, g)
  {
    hide Counted, SeriesKey, NoLater, Upsert, Standing;
    if rows != [] {
      var n := |rows| - 1;
      var f, latest := rows[n], LatestOf(lib, decision, rows[..n]);
      LatestAreStanding(lib, decision, rows[..n], g);
      LatestIsLatest(lib, decision, rows[..n]);
      StandingNext(lib, decision, rows, g);
      if Counted(lib, decision, f) {
        UpsertMember(latest, f, g);
        LastStands(lib, decision, rows);
      } else {
        NotCounted(lib, decision, rows);
      }
    }
  }

  lemma NotCounted(lib: Library, decision: string, rows: seq<FeatureRow>)
    requires rows != [] && !Counted(lib, decision, rows[|rows| - 1])
    ensures !Standing(lib, decision, rows, |rows| - 1)
  {
  }

  /** By market, symbol and trade date. */
  predicate InKeyOrder(a: DailyRow, b: DailyRow) {
    if a.market != b.market then StringLe(a.market, b.market)
    else if a.symbol != b.symbol then StringLe(a.symbol, b.symbol)
    else StringLe(a.tradeDate, b.tradeDate)
  }

  /** The candidates are the latest rows of each series, the first of several, one for each series, in order. */
  lemma CandidatesExactly(lib: Library, decision: string, rows: seq<FeatureRow>)
    ensures var found := Candidates(lib, decision, rows);
            && (forall g :: g in found <==> IsFirstLatest(lib, decision, rows, g))
            && (forall i, j :: 0 <= i < j < |found| ==>
                  !SameSeries(found[i], found[j]) && InKeyOrder(found[i].daily, found[j].daily))
  {
    hide Sort, LatestOf, Standing, FirstLatest, SeriesKey, SameSeries;
    var latest, found := LatestOf(lib, decision, rows), Candidates(lib, decision, rows);
    SortElements(latest, FeatureLe);
    ByKeyIsPreorder(FeatureLe, FeatureKey);
    SortSorts(latest, FeatureLe);
    LatestIsLatest(lib, decision, rows);
    forall g
      ensures g in found <==> IsFirstLatest(lib, decision, rows, g)
    {
      LatestAreStanding(lib, decision, rows, g);
      forall i | 0 <= i < |rows|
        ensures Standing(lib, decision, rows, i) <==> FirstLatest(lib, decision, rows, i)
      {
        StandingMeans(lib, decision, rows, i);
      }
    }
    forall i, j | 0 <= i < j < |found|
      ensures !SameSeries(found[i], found[j]) && InKeyOrder(found[i].daily, found[j].daily)
    {
      assert FeatureLe(found[i], found[j]);
      ApartAfterSort(latest, found, i, j);
      CountedMeans(lib, decision, found[i], found[j]);
    }
  }

  lemma ApartAfterSort(latest: seq<FeatureRow>, found: seq<FeatureRow>, i: nat, j: nat)
    requires OnePerSeries(latest) && multiset(found) == multiset(latest) && i < j < |found|
    ensures SeriesKey(found[i]) != SeriesKey(found[j])
  {
    hide SeriesKey;
    assert found[i] in multiset(latest) && found[j] in multiset(latest);
    if SeriesKey(found[i]) == SeriesKey(found[j]) {
      var k :| 0 <= k < |latest| && latest[k] == found[i];
      var l :| 0 <= l < |latest| && latest[l] == found[j];
      assert k == l;
      OnlyOnce(latest, k);
      Twice(found, i, j);
    }
  }

  lemma OnlyOnce(latest: seq<FeatureRow>, k: nat)
    requires OnePerSeries(latest) && k < |latest|
    ensures multiset(latest)[latest[k]] == 1
  {
    hide SeriesKey;
    assert latest == latest[..k] + [latest[k]] + latest[k + 1..];
    assert latest[k] !in latest[..k] && latest[k] !in latest[k + 1..];
  }

  lemma Twice(found: seq<FeatureRow>, i: nat, j: nat)
    requires i < j < |found| && found[i] == found[j]
    ensures multiset(found)[found[i]] >= 2
  {
    assert found == found[..j] + found[j..];
    assert found[..j][i] in multiset(found[..j]) && found[j..][0] in multiset(found[j..]);
  }

  // ----- Quality

  /** The row is of the candidate's market, and its symbol, stripped, is the candidate's as it stands. */
  predicate CountsFor(lib: Library, decision: string, g: FeatureRow, f: FeatureRow) {
    Countable(lib, decision, g) && g.daily.market == f.daily.market && Strip(g.daily.symbol) == f.daily.symbol
  }

  /** The rows that count as history of a candidate. */
  function History(lib: Library, decision: string, features: seq<FeatureRow>, f: FeatureRow): (positions: set<nat>) {
    set i: nat | i < |features| && CountsFor(lib, decision, features[i], f)
  }

  lemma {:induction false} HistoryIsCount(lib: Library, decision: string, features: seq<FeatureRow>, f: FeatureRow)
    ensures HistoryCount(lib, decision, features, SeriesOf(f.daily)) == |History(lib, decision, features, f)|
  {
    hide Counted, Countable, Strip, History;
    if features == [] {
      NoHistory(lib, decision, f);
    } else {
      var n := |features| - 1;
      HistoryIsCount(lib, decision, features[..n], f);
      CountedMeans(lib, decision, features[n], f);
      HistoryNext(lib, decision, features, f);
    }
  }

  lemma NoHistory(lib: Library, decision: string, f: FeatureRow)
    ensures History(lib, decision, [], f) == {}
  {
  }

  lemma HistoryNext(lib: Library, decision: string, features: seq<FeatureRow>, f: FeatureRow)
    requires features != []
    ensures var n := |features| - 1;
            var last := features[n];
            |History(lib, decision, features, f)|
            == |History(lib, decision, features[..n], f)| + (if CountsFor(lib, decision, last, f) then 1 else 0)
  {
    hide CountsFor;
    var n := |features| - 1;
    var before, now := History(lib, decision, features[..n], f), History(lib, decision, features, f);
    forall i: nat
      ensures i in now <==> i in before || (i == n && CountsFor(lib, decision, features[n], f))
    {
      assert i < n ==> features[..n][i] == features[i];
    }
    assert n !in before;
    assert now == if CountsFor(lib, decision, features[n], f) then before + {n} else before;
  }

  /** The history is long enough and the volume high enough. */
  predicate Traded(q: Quality, lib: Library, decision: string, features: seq<FeatureRow>, f: FeatureRow) {
    && q.minHistory <= |History(lib, decision, features, f)|
    && q.minVolume <= (if f.daily.volume.None? then 0.0 else f.daily.volume.value)
  }

  /** The last return, either way, and the volatility are not above their limits, as far as they are known. */
  predicate Calm(q: Quality, f: FeatureRow) {
    && (f.return1d.Some? ==> -q.maxAbsReturn <= f.return1d.value <= q.maxAbsReturn)
    && (f.volatility.Some? ==> f.volatility.value <= q.maxVolatility)
  }

  /** A positive close; no price above the high and none below the low, as far as they are known. */
  predicate Consistent(r: DailyRow) {
    && r.close.Some? && 0.0 < r.close.value
    && (r.high.Some? ==> r.close.value <= r.high.value) && (r.low.Some? ==> r.low.value <= r.close.value)
    && (r.high.Some? && r.open.Some? ==> r.open.value <= r.high.value)
    && (r.low.Some? && r.open.Some? ==> r.low.value <= r.open.value)
  }

  predicate Passes(q: Quality, lib: Library, decision: string, features: seq<FeatureRow>, f: FeatureRow) {
    Traded(q, lib, decision, features, f) && Calm(q, f) && Consistent(f.daily)
  }

  /** The check with this name fails, and those before it do not. */
  predicate FailsFirst(
    q: Quality, lib: Library, decision: string, features: seq<FeatureRow>, f: FeatureRow, reason: Reason)
  {
    var short := |History(lib, decision, features, f)| < q.minHistory;
    match reason
    case InsufficientHistory => short
    case LowVolume => !short && !Traded(q, lib, decision, features, f)
    case ReturnLimit =>
      && Traded(q, lib, decision, features, f)
      && f.return1d.Some? && (q.maxAbsReturn < f.return1d.value || f.return1d.value < -q.maxAbsReturn)
    case VolatilityLimit =>
      && Traded(q, lib, decision, features, f) && f.volatility.Some? && q.maxVolatility < f.volatility.value
      && (f.return1d.Some? ==> -q.maxAbsReturn <= f.return1d.value <= q.maxAbsReturn)
    case InvalidOhlc => Traded(q, lib, decision, features, f) && Calm(q, f) && !Consistent(f.daily)
  }

  lemma VerdictMeans(q: Quality, lib: Library, decision: string, features: seq<FeatureRow>, f: FeatureRow)
    ensures var v := Verdict(q, lib, decision, features, f);
            && (v.None? <==> Passes(q, lib, decision, features, f))
            && (v.Some? ==> FailsFirst(q, lib, decision, features, f, v.value))
  {
    hide HistoryCount, History;
    HistoryIsCount(lib, decision, features, f);
  }

  /** The candidates that pass or fail, in order. */
  function Sifted(
    q: Quality, lib: Library, decision: string, features: seq<FeatureRow>, candidates: seq<FeatureRow>, passing: bool)
    : (r: seq<FeatureRow>)
  {
    if candidates == [] then []
    else
      var n := |candidates| - 1;
      Sifted(q, lib, decision, features, candidates[..n], passing)
      + (if Passes(q, lib, decision, features, candidates[n]) == passing then [candidates[n]] else [])
  }

  /** The audit row tells which row failed which check. */
  predicate Tells(
    q: Quality, lib: Library, decision: string, features: seq<FeatureRow>, f: FeatureRow, row: AuditRow)
  {
    && row.market == f.daily.market && row.symbol == f.daily.symbol && row.tradeDate == f.daily.tradeDate
    && row.availableAt == f.daily.availableAt && FailsFirst(q, lib, decision, features, f, row.reason)
  }

  /** The filter keeps exactly the candidates that pass every check, and tells of each other the first that it fails. */
  lemma {:induction false} FilteredExactly(
    q: Quality, lib: Library, decision: string, features: seq<FeatureRow>, candidates: seq<FeatureRow>)
    ensures Kept(q, lib, decision, features, candidates) == Sifted(q, lib, decision, features, candidates, true)
    ensures var failed, audit := Sifted(q, lib, decision, features, candidates, false),
                                 Audited(q, lib, decision, features, candidates);
            |audit| == |failed| && forall i :: 0 <= i < |audit| ==>
                Tells(q, lib, decision, features, failed[i], audit[i])
  {
    hide Verdict, Passes, FailsFirst;
    if candidates != [] {
      var n := |candidates| - 1;
      FilteredExactly(q, lib, decision, features, candidates[..n]);
      VerdictMeans(q, lib, decision, features, candidates[n]);
    }
  }

  lemma {:induction false} SiftedElements(
    q: Quality, lib: Library, decision: string, features: seq<FeatureRow>, candidates: seq<FeatureRow>, passing: bool)
    ensures forall f :: f in Sifted(q, lib, decision, features, candidates, passing) <==>
                        f in candidates && Passes(q, lib, decision, features, f) == passing
  {
    hide Passes;
    if candidates != [] {
      var n := |candidates| - 1;
      SiftedElements(q, lib, decision, features, candidates[..n], passing);
      assert candidates == candidates[..n] + [candidates[n]];
    }
  }

  /** A candidate whose symbol has white space around it has no history, and is kept only if none is asked for. */
  lemma SpacedSymbolHasNoHistory(
    q: Quality, lib: Library, decision: string, features: seq<FeatureRow>, f: FeatureRow)
    requires Strip(f.daily.symbol) != f.daily.symbol && 1 <= q.minHistory
    ensures Verdict(q, lib, decision, features, f) == Some(InsufficientHistory)
  {
    hide Countable, Strip, HistoryCount;
    HistoryIsCount(lib, decision, features, f);
    forall i: nat | i in History(lib, decision, features, f)
      ensures false
    {
      StrippedTwice(features[i].daily.symbol);
    }
    assert History(lib, decision, features, f) == {};
  }

  // ----- The whole pipeline

  /** The row of a series that the pipeline takes: the first latest, if it passes every check. */
  ghost predicate Recommendable(q: Quality, lib: Library, decision: string, features: seq<FeatureRow>, f: FeatureRow) {
    IsFirstLatest(lib, decision, features, f) && Passes(q, lib, decision, features, f)
  }

  lemma RecommendableIsRankable(lib: Library, decision: string, features: seq<FeatureRow>, f: FeatureRow)
    requires IsFirstLatest(lib, decision, features, f)
    ensures Rankable(lib, decision, f)
  {
    hide Strip;
  }

  lemma SameFeatures(c: Config, ranked: seq<RankedRow>)
    requires ValidConfig(c)
    ensures var out := Constructed(c, ranked);
            && FeaturesOf(out) == FeaturesOf(ranked)
            && forall i :: 0 <= i < |ranked| ==>
                 out[i] == ranked[i].(selected := out[i].selected, portfolioRank := out[i].portfolioRank,
                                      targetWeight := out[i].targetWeight)
  {
    hide Picked, RawTotal, Weight;
  }

  lemma StillMeans(w: Weights, r: RankedRow, now: RankedRow)
    requires RowMeans(w, r.feature, r)
    requires now == r.(selected := now.selected, portfolioRank := now.portfolioRank, targetWeight := now.targetWeight)
    ensures RowMeans(w, now.feature, now)
  {
    hide Brought, Derived, Explained, Confident, Weighted, Graded;
    var s :| Scored(r.feature, s) && MadeOf(w, s, r);
    assert MadeOf(w, s, now);
  }

  /**
   * Every row the pipeline returns is the first latest of its series among the features and passes every check, each
   * such row is returned, and they are scored, explained and ordered as stated.
   */
  lemma PortfolioExactly(lib: Library, s: Settings, decision: string, rows: seq<DailyRow>)
    requires FromDaily(lib, s, decision, rows).Ok? && ValidConfig(s.portfolio)
    ensures var out := FromDaily(lib, s, decision, rows).value;
            && (forall f :: f in FeaturesOf(out.portfolio) <==>
                            Recommendable(s.quality, lib, decision, out.features, f))
            && (forall i :: 0 <= i < |out.portfolio| ==> RankedAs(s.weights, out.portfolio[i], i))
            && (forall i, j :: 0 <= i < j < |out.portfolio| ==> InRankOrder(out.portfolio[i], out.portfolio[j]))
  {
    hide Built, Candidates, Kept, Audited, Constructed, Ranked, Sort, Filter, IsFirstLatest, Passes, RowMeans, Rankable,
      FeaturesOf;
    var out := FromDaily(lib, s, decision, rows).value;
    var kept := Kept(s.quality, lib, decision, out.features, out.candidates);
    var ranked := Ranked(lib, s.weights, decision, kept);
    CandidatesExactly(lib, decision, out.features);
    FilteredExactly(s.quality, lib, decision, out.features, out.candidates);
    SiftedElements(s.quality, lib, decision, out.features, out.candidates, true);
    RankedExactly(lib, s.weights, decision, kept);
    SameFeatures(s.portfolio, ranked);
    forall f
      ensures f in FeaturesOf(ranked) <==> Recommendable(s.quality, lib, decision, out.features, f)
    {
      assert f in FeaturesOf(ranked) <==> f in multiset(FeaturesOf(ranked));
      assert f in kept <==> f in multiset(kept);
      if Recommendable(s.quality, lib, decision, out.features, f) {
        RecommendableIsRankable(lib, decision, out.features, f);
      }
    }
    forall i | 0 <= i < |out.portfolio|
      ensures RankedAs(s.weights, out.portfolio[i], i)
    {
      StillMeans(s.weights, ranked[i], out.portfolio[i]);
    }
  }

  /**
   * The pipeline fails exactly when the decision time has no time zone or a row that is in time has no close. Otherwise
   * there is one feature for each row that is in time.
   */
  lemma FromDailyExactly(lib: Library, s: Settings, decision: string, rows: seq<DailyRow>)
    ensures var r, at := FromDaily(lib, s, decision, rows), lib.parse(decision);
            && (r == Err(InvalidDecisionTime) <==> !at.Aware?)
            && (at.Aware? ==>
                  && (r.Err? <==> exists row :: row in rows && InTime(lib, at.at, row) && row.close.None?)
                  && (r.Ok? ==>
                        && (forall row :: multiset(Dailies(r.value.features))[row]
                                          == if InTime(lib, at.at, row) then multiset(rows)[row] else 0)
                        && (forall f :: f in r.value.features ==> StampedWith(f, rows))))
  {
    hide Built, Candidates, Kept, Audited, Constructed, Ranked, Sort, Filter, InTime, Seen, Dailies, StampedWith,
      StandsFor;
    var at := lib.parse(decision);
    if at.Aware? {
      var ordered := Sort(rows, DailyLe);
      SortElements(rows, DailyLe);
      var pit := Filter(ordered, Pit(lib, at.at));
      BuiltExactly(lib, s.windows, decision, pit, ordered);
      ValidatedExactly(lib, at.at, ordered);
      forall row
        ensures multiset(pit)[row] == if InTime(lib, at.at, row) then multiset(rows)[row] else 0
        ensures InTime(lib, at.at, row) ==> Seen(lib, decision, row)
      {
        FilterCounts(lib, at.at, ordered, row);
        InTimeIsSeen(lib, decision, row);
      }
      if Built(lib, s.windows, decision, pit, ordered).Ok? {
        forall f | f in Built(lib, s.windows, decision, pit, ordered).value
          ensures StampedWith(f, rows)
        {
          StandsWithStamp(lib, s.windows, decision, pit, ordered, f);
          OrderedStamps(rows, f);
        }
      }
    }
  }

  /** The checksum of a feature is taken over all rows, by market, symbol and trade date. */
  predicate StampedWith(f: FeatureRow, rows: seq<DailyRow>) {
    && multiset(f.checksum) == multiset(rows)
    && forall i, j :: 0 <= i < j < |f.checksum| ==> InKeyOrder(f.checksum[i], f.checksum[j])
  }

  lemma OrderedStamps(rows: seq<DailyRow>, f: FeatureRow)
    requires f.checksum == Sort(rows, DailyLe)
    ensures StampedWith(f, rows)
  {
    SortElements(rows, DailyLe);
    DailyLeIsPreorder();
    SortSorts(rows, DailyLe);
    hide Sort;
    forall i, j | 0 <= i < j < |f.checksum|
      ensures InKeyOrder(f.checksum[i], f.checksum[j])
    {
      assert DailyLe(f.checksum[i], f.checksum[j]);
    }
  }

  lemma StandsWithStamp(
    lib: Library, w: FeatureConfig, decision: string, rows: seq<DailyRow>, checksum: Checksum, f: FeatureRow)
    requires StandsFor(lib, w, decision, rows, checksum, f)
    ensures f.checksum == checksum
  {
  }

  lemma {:induction false} FilterCounts(lib: Library, at: int, rows: seq<DailyRow>, row: DailyRow)
    ensures multiset(Filter(rows, Pit(lib, at)))[row] == if InTime(lib, at, row) then multiset(rows)[row] else 0
  {
    if rows != [] {
      FilterCounts(lib, at, rows[1..], row);
      assert rows == [rows[0]] + rows[1..];
    }
  }

  lemma InTimeIsSeen(lib: Library, decision: string, row: DailyRow)
    requires lib.parse(decision).Aware?
    ensures InTime(lib, lib.parse(decision).at, row) ==> Seen(lib, decision, row)
  {
  }
}
