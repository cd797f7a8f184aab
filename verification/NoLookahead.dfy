/** Rows that are not available at the decision time cannot influence the recommended portfolio. */
module NoLookahead {
  import opened Base
  import opened Sorting
  import opened Recommendation
  import opened Features
  import opened Portfolio
  import opened TargetWeights
  import opened DailyPipeline

  // ----- Everything but the checksum

  function Erase(f: FeatureRow): (r: FeatureRow) {
    f.(checksum := [])
  }

  function EraseAll(rows: seq<FeatureRow>): (out: seq<FeatureRow>)
    ensures |out| == |rows|
  {
    seq(|rows|, i requires 0 <= i < |rows| => Erase(rows[i]))
  }

  function EraseRanked(r: RankedRow): (result: RankedRow) {
    r.(feature := Erase(r.feature))
  }

  function EraseAllRanked(rows: seq<RankedRow>): (out: seq<RankedRow>)
    ensures |out| == |rows|
  {
    seq(|rows|, i requires 0 <= i < |rows| => EraseRanked(rows[i]))
  }

  /** The result apart from checksum fields. */
  function EraseOutput(r: Result<Output, PipelineError>): (result: Result<Output, PipelineError>) {
    match r
    case Err(error) => Err(error)
    case Ok(o) => Ok(Output(EraseAll(o.features), EraseAll(o.candidates), o.audit, EraseAllRanked(o.portfolio)))
  }

  lemma EraseLast(rows: seq<FeatureRow>)
    requires rows != []
    ensures EraseAll(rows)[..|rows| - 1] == EraseAll(rows[..|rows| - 1])
    ensures EraseAll(rows)[|rows| - 1] == Erase(rows[|rows| - 1])
  {
  }

  lemma EraseAppend(a: seq<FeatureRow>, b: seq<FeatureRow>)
    ensures EraseAll(a + b) == EraseAll(a) + EraseAll(b)
  {
  }

  // ----- Each stage commutes with erasing the checksum

  lemma {:induction false} FeaturesErase(
    lib: Library, w: FeatureConfig, rows: seq<DailyRow>, series: seq<Series>, checksum: Checksum)
    ensures GroupFeatures(lib, w, rows, series, []) ==
            match GroupFeatures(lib, w, rows, series, checksum)
            case Err(error) => Err(error)
            case Ok(features) => Ok(EraseAll(features))
  {
    if series != [] {
      FeaturesErase(lib, w, rows, series[..|series| - 1], checksum);
      var before := GroupFeatures(lib, w, rows, series[..|series| - 1], checksum);
      var items := Sort(RowsOf(rows, series[|series| - 1]), DateLe);
      if before.Ok? && AllClosed(items) {
        EraseAppend(before.value, SeriesFeatures(lib, w, items, checksum));
        assert EraseAll(SeriesFeatures(lib, w, items, checksum)) == SeriesFeatures(lib, w, items, []);
      }
    }
  }

  lemma {:induction false} UpsertErase(latest: seq<FeatureRow>, f: FeatureRow)
    ensures Upsert(EraseAll(latest), Erase(f)) == EraseAll(Upsert(latest, f))
  {
    if latest != [] {
      assert EraseAll(latest)[1..] == EraseAll(latest[1..]);
      if SeriesKey(latest[0]) == SeriesKey(f) {
        EraseAppend([if NoLater(f, latest[0]) then latest[0] else f], latest[1..]);
      } else {
        UpsertErase(latest[1..], f);
        EraseAppend([latest[0]], Upsert(latest[1..], f));
      }
    }
  }

  lemma {:induction false} LatestErase(lib: Library, decision: string, rows: seq<FeatureRow>)
    ensures LatestOf(lib, decision, EraseAll(rows)) == EraseAll(LatestOf(lib, decision, rows))
  {
    if rows != [] {
      EraseLast(rows);
      LatestErase(lib, decision, rows[..|rows| - 1]);
      UpsertErase(LatestOf(lib, decision, rows[..|rows| - 1]), rows[|rows| - 1]);
    }
  }

  lemma {:induction false} InsertErase(f: FeatureRow, s: seq<FeatureRow>)
    ensures Insert(Erase(f), EraseAll(s), FeatureLe) == EraseAll(Insert(f, s, FeatureLe))
  {
    if s != [] {
      assert EraseAll(s)[1..] == EraseAll(s[1..]);
      InsertErase(f, s[1..]);
      EraseAppend([s[0]], Insert(f, s[1..], FeatureLe));
    }
    EraseAppend([f], s);
  }

  lemma {:induction false} SortErase(s: seq<FeatureRow>)
    ensures Sort(EraseAll(s), FeatureLe) == EraseAll(Sort(s, FeatureLe))
  {
    if s != [] {
      assert EraseAll(s)[1..] == EraseAll(s[1..]);
      SortErase(s[1..]);
      InsertErase(s[0], Sort(s[1..], FeatureLe));
    }
  }

  lemma {:induction false} CountErase(lib: Library, decision: string, rows: seq<FeatureRow>, key: Series)
    ensures HistoryCount(lib, decision, EraseAll(rows), key) == HistoryCount(lib, decision, rows, key)
  {
    if rows != [] {
      EraseLast(rows);
      CountErase(lib, decision, rows[..|rows| - 1], key);
    }
  }

  lemma {:induction false} FilterErase(
    q: Quality, lib: Library, decision: string, features: seq<FeatureRow>, candidates: seq<FeatureRow>)
    ensures Kept(q, lib, decision, EraseAll(features), EraseAll(candidates))
            == EraseAll(Kept(q, lib, decision, features, candidates))
    ensures Audited(q, lib, decision, EraseAll(features), EraseAll(candidates))
            == Audited(q, lib, decision, features, candidates)
  {
    hide HistoryCount;
    if candidates != [] {
      var last := candidates[|candidates| - 1];
      EraseLast(candidates);
      FilterErase(q, lib, decision, features, candidates[..|candidates| - 1]);
      CountErase(lib, decision, features, SeriesOf(last.daily));
      EraseAppend(Kept(q, lib, decision, features, candidates[..|candidates| - 1]), [last]);
    }
  }

  lemma ScoreErase(w: Weights, f: FeatureRow)
    ensures ScoredRow(w, Erase(f)) == EraseRanked(ScoredRow(w, f))
  {
    assert Scores(Erase(f)) == Scores(f);
    hide Scores, Blend, Reasons, Highest, Lowest;
  }

  lemma EraseRankedAppend(a: seq<RankedRow>, b: seq<RankedRow>)
    ensures EraseAllRanked(a + b) == EraseAllRanked(a) + EraseAllRanked(b)
  {
  }

  lemma {:induction false} ScoredErase(lib: Library, w: Weights, decision: string, rows: seq<FeatureRow>)
    ensures ScoredRows(lib, w, decision, EraseAll(rows)) == EraseAllRanked(ScoredRows(lib, w, decision, rows))
  {
    hide ScoredRow;
    if rows != [] {
      var last := rows[|rows| - 1];
      EraseLast(rows);
      ScoredErase(lib, w, decision, rows[..|rows| - 1]);
      ScoreErase(w, last);
      EraseRankedAppend(ScoredRows(lib, w, decision, rows[..|rows| - 1]), [ScoredRow(w, last)]);
    }
  }

  lemma {:induction false} InsertRankedErase(r: RankedRow, s: seq<RankedRow>)
    ensures Insert(EraseRanked(r), EraseAllRanked(s), RankLe) == EraseAllRanked(Insert(r, s, RankLe))
  {
    if s != [] {
      assert EraseAllRanked(s)[1..] == EraseAllRanked(s[1..]);
      InsertRankedErase(r, s[1..]);
      EraseRankedAppend([s[0]], Insert(r, s[1..], RankLe));
    }
    EraseRankedAppend([r], s);
  }

  lemma {:induction false} SortRankedErase(s: seq<RankedRow>)
    ensures Sort(EraseAllRanked(s), RankLe) == EraseAllRanked(Sort(s, RankLe))
  {
    if s != [] {
      assert EraseAllRanked(s)[1..] == EraseAllRanked(s[1..]);
      SortRankedErase(s[1..]);
      InsertRankedErase(s[0], Sort(s[1..], RankLe));
    }
  }

  lemma RankedErase(lib: Library, w: Weights, decision: string, rows: seq<FeatureRow>)
    ensures Ranked(lib, w, decision, EraseAll(rows)) == EraseAllRanked(Ranked(lib, w, decision, rows))
  {
    ScoredErase(lib, w, decision, rows);
    var scored := ScoredRows(lib, w, decision, rows);
    SortRankedErase(scored);
    assert Numbered(EraseAllRanked(Sort(scored, RankLe))) == EraseAllRanked(Numbered(Sort(scored, RankLe)));
  }

  lemma {:induction false} PickedErase(c: Config, rows: seq<RankedRow>, n: nat)
    requires n <= |rows|
    ensures Picked(c, EraseAllRanked(rows), n) == Picked(c, rows, n)
  {
    hide Picked;
    NothingPicked(c, rows);
    NothingPicked(c, EraseAllRanked(rows));
    if n > 0 {
      PickedErase(c, rows, n - 1);
      PickErase(c, rows, n);
    }
  }

  lemma PickErase(c: Config, rows: seq<RankedRow>, n: nat)
    requires 0 < n <= |rows| && Picked(c, EraseAllRanked(rows), n - 1) == Picked(c, rows, n - 1)
    ensures Picked(c, EraseAllRanked(rows), n) == Picked(c, rows, n)
  {
    hide InMarket, Eligible, MarketAt, EraseRanked;
    MarketErase(rows, Picked(c, rows, n - 1), MarketAt(rows, n - 1));
    EligibleErase(c, rows, n - 1);
  }

  lemma MarketErase(rows: seq<RankedRow>, s: set<nat>, market: string)
    ensures InMarket(EraseAllRanked(rows), s, market) == InMarket(rows, s, market)
  {
  }

  lemma EligibleErase(c: Config, rows: seq<RankedRow>, i: nat)
    requires i < |rows|
    ensures Eligible(c, EraseAllRanked(rows)[i]) <==> Eligible(c, rows[i])
    ensures MarketAt(EraseAllRanked(rows), i) == MarketAt(rows, i)
  {
  }

  lemma {:induction false} RawTotalErase(rows: seq<RankedRow>, s: set<nat>, n: nat)
    requires n <= |rows|
    ensures RawTotal(EraseAllRanked(rows), s, n) == RawTotal(rows, s, n)
  {
    if n > 0 {
      RawTotalErase(rows, s, n - 1);
      assert RawWeight(EraseAllRanked(rows)[n - 1]) == RawWeight(rows[n - 1]);
    }
  }

  lemma ConstructedErase(c: Config, rows: seq<RankedRow>)
    ensures Constructed(c, EraseAllRanked(rows)) == EraseAllRanked(Constructed(c, rows))
  {
    hide Picked, RawTotal, Weight;
    var erased := EraseAllRanked(rows);
    PickedErase(c, rows, |rows|);
    var s := Picked(c, rows, |rows|);
    RawTotalErase(rows, s, |rows|);
    var total := RawTotal(rows, s, |rows|);
    forall i | 0 <= i < |rows|
      ensures Placed(c, erased, s, i) == EraseRanked(Placed(c, rows, s, i))
    {
      if total != 0.0 {
        WeightErase(c, rows[i], total);
      }
    }
  }

  lemma WeightErase(c: Config, r: RankedRow, total: real)
    requires total != 0.0
    ensures Weight(c, EraseRanked(r), total) == Weight(c, r, total)
  {
    assert RawWeight(EraseRanked(r)) == RawWeight(r);
  }

  /** Apart from checksums, the checksum has no influence on the result. */
  lemma ChecksumHasNoInfluence(lib: Library, s: Settings, decision: string, pit: seq<DailyRow>, checksum: Checksum)
    ensures EraseOutput(Recommended(lib, s, decision, pit, checksum)) == Recommended(lib, s, decision, pit, [])
  {
    hide Constructed, Ranked, Kept, Audited, LatestOf, GroupFeatures;
    var available := AvailableRows(lib, decision, pit);
    FeaturesErase(lib, s.windows, available, SeriesIn(available), checksum);
    var built := Built(lib, s.windows, decision, pit, checksum);
    if built.Ok? {
      var features := built.value;
      LatestErase(lib, decision, features);
      SortErase(LatestOf(lib, decision, features));
      var candidates := Candidates(lib, decision, features);
      FilterErase(s.quality, lib, decision, features, candidates);
      var kept := Kept(s.quality, lib, decision, features, candidates);
      RankedErase(lib, s.weights, decision, kept);
      ConstructedErase(s.portfolio, Ranked(lib, s.weights, decision, kept));
    }
  }

  // ----- The theorem

  /**
   * Two inputs with the same rows available by the decision time give the same features, candidates, filter audit,
   * ranking and portfolio, apart from checksum fields.
   */
  lemma FutureRowsDoNotMatter(lib: Library, s: Settings, decision: string, a: seq<DailyRow>, b: seq<DailyRow>)
    requires lib.parse(decision).Aware? ==>
               Filter(a, Pit(lib, lib.parse(decision).at)) == Filter(b, Pit(lib, lib.parse(decision).at))
    ensures EraseOutput(FromDaily(lib, s, decision, a)) == EraseOutput(FromDaily(lib, s, decision, b))
  {
    hide Recommended, Sort, Filter, Pit;
    if lib.parse(decision).Aware? {
      var keep := Pit(lib, lib.parse(decision).at);
      DailyLeIsPreorder();
      FilterSort(a, DailyLe, keep);
      FilterSort(b, DailyLe, keep);
      var pit := Filter(Sort(a, DailyLe), keep);
      ChecksumHasNoInfluence(lib, s, decision, pit, Sort(a, DailyLe));
      ChecksumHasNoInfluence(lib, s, decision, pit, Sort(b, DailyLe));
    }
  }

  /** No two rows describe the same market, symbol and trade date. */
  ghost predicate DistinctKeys(rows: seq<DailyRow>) {
    forall x, y :: x in rows && y in rows && DailyKey(x) == DailyKey(y) ==> x == y
  }

  /** When keys do not repeat, the order in which the rows arrive does not matter either. */
  lemma ArrivalOrderDoesNotMatter(lib: Library, s: Settings, decision: string, a: seq<DailyRow>, b: seq<DailyRow>)
    requires lib.parse(decision).Aware? ==>
               var keep := Pit(lib, lib.parse(decision).at);
               multiset(Filter(a, keep)) == multiset(Filter(b, keep)) && DistinctKeys(Filter(a, keep))
    ensures EraseOutput(FromDaily(lib, s, decision, a)) == EraseOutput(FromDaily(lib, s, decision, b))
  {
    hide Recommended, Filter, Pit;
    if lib.parse(decision).Aware? {
      var keep := Pit(lib, lib.parse(decision).at);
      DailyLeIsPreorder();
      FilterSort(a, DailyLe, keep);
      FilterSort(b, DailyLe, keep);
      SameSorted(Filter(a, keep), Filter(b, keep));
      hide Sort;
      var pit := Filter(Sort(a, DailyLe), keep);
      ChecksumHasNoInfluence(lib, s, decision, pit, Sort(a, DailyLe));
      ChecksumHasNoInfluence(lib, s, decision, pit, Sort(b, DailyLe));
    }
  }

  lemma SameSorted(x: seq<DailyRow>, y: seq<DailyRow>)
    requires multiset(x) == multiset(y) && DistinctKeys(x)
    ensures Sort(x, DailyLe) == Sort(y, DailyLe)
  {
    DailyLeIsPreorder();
    SortSorts(x, DailyLe);
    SortSorts(y, DailyLe);
    SortElements(x, DailyLe);
    SortElements(y, DailyLe);
    forall p, q | p in Sort(x, DailyLe) && q in Sort(x, DailyLe) && DailyLe(p, q) && DailyLe(q, p)
      ensures p == q
    {
      KeyLeAntisymmetric(DailyKey(p), DailyKey(q));
    }
    SortedUnique(Sort(x, DailyLe), Sort(y, DailyLe), DailyLe);
  }

  /** The portfolio the pipeline recommends is optimal among all admissible selections of its own ranking. */
  lemma RecommendationIsOptimal(lib: Library, s: Settings, decision: string, kept: seq<FeatureRow>, t: set<nat>)
    requires ValidConfig(s.portfolio) && Feasible(s.portfolio, Ranked(lib, s.weights, decision, kept), t)
    ensures var ranked := Ranked(lib, s.weights, decision, kept);
            var picked := Picked(s.portfolio, ranked, |ranked|);
            && Feasible(s.portfolio, ranked, picked)
            && |t| <= |picked| && ScoreOf(ranked, t, |ranked|) <= ScoreOf(ranked, picked, |ranked|)
            && forall i :: 0 <= i < |ranked| ==> (Constructed(s.portfolio, ranked)[i].selected <==> i in picked)
  {
    var ranked := Ranked(lib, s.weights, decision, kept);
    RankedDescends(lib, s.weights, decision, kept);
    hide Ranked;
    GreedyIsOptimal(s.portfolio, ranked, t);
    hide Picked, Feasible;
    RawTotalPositive(ranked, Picked(s.portfolio, ranked, |ranked|), |ranked|);
    hide RawTotal;
  }
}
