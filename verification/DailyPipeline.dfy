/** From daily rows to a recommended portfolio at a decision time (`recommendation_pipeline.py`). */
module DailyPipeline {
  import opened Base
  import opened Sorting
  import opened Recommendation
  import opened Features
  import opened Portfolio
  import opened TargetWeights

  datatype Quality = Quality(minHistory: int, minVolume: real, maxAbsReturn: real, maxVolatility: real)

  datatype Settings = Settings(windows: FeatureConfig, quality: Quality, weights: Weights, portfolio: Config)

  // ----- Point-in-time validation

  /** Readable, time-zone aware, and not after the decision. */
  predicate PitEligible(lib: Library, at: int, row: DailyRow) {
    && row.availableAt.Some? && row.availableAt.value != ""
    && lib.parse(row.availableAt.value).Aware? && lib.parse(row.availableAt.value).at <= at
  }

  predicate Future(lib: Library, at: int, row: DailyRow) {
    && row.availableAt.Some? && row.availableAt.value != ""
    && lib.parse(row.availableAt.value).Aware? && lib.parse(row.availableAt.value).at > at
  }

  function Pit(lib: Library, at: int): (r: DailyRow -> bool) {
    row => PitEligible(lib, at, row)
  }

  function Late(lib: Library, at: int): (r: DailyRow -> bool) {
    row => Future(lib, at, row)
  }

  datatype PitReport = PitReport(input: nat, eligible: nat, rejected: nat, missing: nat, future: nat)

  lemma {:induction false} FilterAppend<T>(s: seq<T>, t: seq<T>, keep: T -> bool)
    ensures Filter(s + t, keep) == Filter(s, keep) + Filter(t, keep)
  {
    if s == [] {
      assert s + t == t && Filter(s, keep) == [];
    } else {
      FilterHead(s[0], s[1..], keep);
      FilterHead(s[0], s[1..] + t, keep);
      hide Filter;
      assert s == [s[0]] + s[1..] && s + t == [s[0]] + (s[1..] + t);
      FilterAppend(s[1..], t, keep);
    }
  }

  lemma FilterHead<T>(x: T, s: seq<T>, keep: T -> bool)
    ensures Filter([x] + s, keep) == (if keep(x) then [x] else []) + Filter(s, keep)
  {
    assert ([x] + s)[1..] == s;
  }

  /** Every row is eligible or rejected, and every rejected one is too late or has no usable timestamp. */
  predicate Reports(report: PitReport, rows: nat, eligible: nat, future: nat) {
    && report.input == rows && report.eligible == eligible && report.rejected == rows - eligible
    && report.future == future && report.missing + report.future == report.rejected
  }

  /** `PointInTimeValidator.validate`; every rejected row is counted under exactly one reason. */
  method Validate(lib: Library, at: int, rows: seq<DailyRow>) returns (eligible: seq<DailyRow>, report: PitReport)
    ensures eligible == Filter(rows, Pit(lib, at))
    ensures Reports(report, |rows|, |eligible|, |Filter(rows, Late(lib, at))|)
  {
    eligible := [];
    var missing, future := 0, 0;
    ghost var late := Late(lib, at);
    for i := 0 to |rows|
      invariant eligible == Filter(rows[..i], Pit(lib, at))
      invariant missing + future + |eligible| == i && future == |Filter(rows[..i], late)|
    {
      var row := rows[i];
      assert rows[..i + 1] == rows[..i] + [row];
      FilterAppend(rows[..i], [row], Pit(lib, at));
      FilterAppend(rows[..i], [row], late);
      assert Filter([row], late) == if late(row) then [row] else [];
      assert Filter([row], Pit(lib, at)) == if PitEligible(lib, at, row) then [row] else [];
      if row.availableAt.None? || row.availableAt.value == "" || !lib.parse(row.availableAt.value).Aware? {
        missing := missing + 1;
      } else if lib.parse(row.availableAt.value).at > at {
        future := future + 1;
      } else {
        eligible := eligible + [row];
      }
    }
    assert rows[..|rows|] == rows;
    report := PitReport(|rows|, |eligible|, |rows| - |eligible|, missing, future);
  }

  // ----- Latest candidate of each series

  /** The pipeline's own check of a feature row: an absent timestamp passes, anything else must be aware and in time. */
  predicate PointInTime(lib: Library, decision: string, row: DailyRow) {
    || row.availableAt.None?
    || (lib.parse(row.availableAt.value).Aware? && lib.parse(decision).Aware?
        && lib.parse(row.availableAt.value).at <= lib.parse(decision).at)
  }

  predicate Counted(lib: Library, decision: string, f: FeatureRow) {
    PointInTime(lib, decision, f.daily) && Strip(f.daily.symbol) != ""
  }

  function SeriesKey(f: FeatureRow): (r: Series) {
    Series(f.daily.market, Strip(f.daily.symbol))
  }

  /** No later than, by trade date and then by the text of the timestamp. */
  predicate NoLater(a: FeatureRow, b: FeatureRow) {
    if a.daily.tradeDate != b.daily.tradeDate then StringLe(a.daily.tradeDate, b.daily.tradeDate)
    else StringLe(GetText(a.daily.availableAt), GetText(b.daily.availableAt))
  }

  /** Keep one row per series, in order of first occurrence; a strictly later row replaces the one kept. */
  function Upsert(latest: seq<FeatureRow>, f: FeatureRow): (r: seq<FeatureRow>) {
    if latest == [] then [f]
    else if SeriesKey(latest[0]) == SeriesKey(f) then
      [if NoLater(f, latest[0]) then latest[0] else f] + latest[1..]
    else [latest[0]] + Upsert(latest[1..], f)
  }

  function LatestOf(lib: Library, decision: string, rows: seq<FeatureRow>): (r: seq<FeatureRow>) {
    if rows == [] then []
    else
      var before := LatestOf(lib, decision, rows[..|rows| - 1]);
      if Counted(lib, decision, rows[|rows| - 1]) then Upsert(before, rows[|rows| - 1]) else before
  }

  function FeatureKey(f: FeatureRow): (r: Key) {
    Key(f.daily.market, f.daily.symbol, f.daily.tradeDate)
  }

  predicate FeatureLe(a: FeatureRow, b: FeatureRow) {
    KeyLe(FeatureKey(a), FeatureKey(b))
  }

  function Candidates(lib: Library, decision: string, rows: seq<FeatureRow>): (r: seq<FeatureRow>) {
    Sort(LatestOf(lib, decision, rows), FeatureLe)
  }

  /** `_latest_candidates` */
  method LatestCandidates(lib: Library, decision: string, rows: seq<FeatureRow>) returns (candidates: seq<FeatureRow>)
    ensures candidates == Candidates(lib, decision, rows)
  {
    var latest: seq<FeatureRow> := [];
    for i := 0 to |rows|
      invariant latest == LatestOf(lib, decision, rows[..i])
    {
      assert rows[..i + 1][..i] == rows[..i];
      if Counted(lib, decision, rows[i]) {
        latest := Upsert(latest, rows[i]);
      }
    }
    assert rows[..|rows|] == rows;
    candidates := Sort(latest, FeatureLe);
  }

  /** One entry per series, each one of the rows. */
  predicate OnePerSeries(latest: seq<FeatureRow>) {
    forall i, j :: 0 <= i < j < |latest| ==> SeriesKey(latest[i]) != SeriesKey(latest[j])
  }

  ghost predicate Covers(latest: seq<FeatureRow>, f: FeatureRow) {
    exists k :: 0 <= k < |latest| && SeriesKey(latest[k]) == SeriesKey(f) && NoLater(f, latest[k])
  }

  lemma NoLaterTotal(a: FeatureRow, b: FeatureRow)
    ensures NoLater(a, b) || NoLater(b, a)
  {
    StringLeTotal(a.daily.tradeDate, b.daily.tradeDate);
    StringLeTotal(GetText(a.daily.availableAt), GetText(b.daily.availableAt));
  }

  lemma NoLaterTransitive(a: FeatureRow, b: FeatureRow, c: FeatureRow)
    requires NoLater(a, b) && NoLater(b, c)
    ensures NoLater(a, c)
  {
    if a.daily.tradeDate != b.daily.tradeDate && b.daily.tradeDate != c.daily.tradeDate {
      StringLeTransitive(a.daily.tradeDate, b.daily.tradeDate, c.daily.tradeDate);
      if a.daily.tradeDate == c.daily.tradeDate {
        StringLeAntisymmetric(a.daily.tradeDate, b.daily.tradeDate);
      }
    } else if a.daily.tradeDate == b.daily.tradeDate == c.daily.tradeDate {
      StringLeTransitive(GetText(a.daily.availableAt), GetText(b.daily.availableAt), GetText(c.daily.availableAt));
    }
  }

  lemma HeadReplaced(latest: seq<FeatureRow>, head: FeatureRow, f: FeatureRow)
    requires latest != [] && OnePerSeries(latest) && SeriesKey(latest[0]) == SeriesKey(f)
    requires NoLater(f, head) && NoLater(latest[0], head) && head in {latest[0], f}
    ensures OnePerSeries([head] + latest[1..]) && Covers([head] + latest[1..], f)
    ensures forall g :: Covers(latest, g) ==> Covers([head] + latest[1..], g)
  {
    hide NoLater;
    var after := [head] + latest[1..];
    assert SeriesKey(after[0]) == SeriesKey(f) && NoLater(f, after[0]);
    forall g | Covers(latest, g)
      ensures Covers(after, g)
    {
      var k :| 0 <= k < |latest| && SeriesKey(latest[k]) == SeriesKey(g) && NoLater(g, latest[k]);
      if k == 0 {
        NoLaterTransitive(g, latest[0], head);
      }
      assert SeriesKey(after[k]) == SeriesKey(g) && NoLater(g, after[k]);
    }
  }

  lemma KeptBehind(first: FeatureRow, before: seq<FeatureRow>, rest: seq<FeatureRow>)
    requires forall g :: Covers(before, g) ==> Covers(rest, g)
    ensures forall g :: Covers([first] + before, g) ==> Covers([first] + rest, g)
    ensures forall g :: Covers(rest, g) ==> Covers([first] + rest, g)
  {
    hide NoLater;
    var was, after := [first] + before, [first] + rest;
    forall g | Covers(rest, g)
      ensures Covers(after, g)
    {
      var j :| 0 <= j < |rest| && SeriesKey(rest[j]) == SeriesKey(g) && NoLater(g, rest[j]);
      assert after[j + 1] == rest[j];
    }
    forall g | Covers(was, g)
      ensures Covers(after, g)
    {
      var k :| 0 <= k < |was| && SeriesKey(was[k]) == SeriesKey(g) && NoLater(g, was[k]);
      if k == 0 {
        assert SeriesKey(after[0]) == SeriesKey(g) && NoLater(g, after[0]);
      } else {
        assert before[k - 1] == was[k];
        assert Covers(before, g);
      }
    }
  }

  lemma {:induction false} UpsertShape(latest: seq<FeatureRow>, f: FeatureRow)
    requires OnePerSeries(latest)
    ensures OnePerSeries(Upsert(latest, f))
    ensures forall g :: g in Upsert(latest, f) ==> g == f || g in latest
    ensures Covers(Upsert(latest, f), f)
    ensures forall g :: Covers(latest, g) ==> Covers(Upsert(latest, f), g)
  {
    var after := Upsert(latest, f);
    if latest == [] {
      NoLaterTotal(f, f);
      assert SeriesKey(after[0]) == SeriesKey(f);
    } else if SeriesKey(latest[0]) == SeriesKey(f) {
      NoLaterTotal(f, f);
      NoLaterTotal(f, latest[0]);
      NoLaterTotal(latest[0], latest[0]);
      assert after == [if NoLater(f, latest[0]) then latest[0] else f] + latest[1..];
      HeadReplaced(latest, after[0], f);
    } else {
      var rest := Upsert(latest[1..], f);
      UpsertShape(latest[1..], f);
      UpsertKeys(latest[1..], f, SeriesKey(latest[0]));
      assert after == [latest[0]] + rest && latest == [latest[0]] + latest[1..];
      KeptBehind(latest[0], latest[1..], rest);
    }
  }

  lemma {:induction false} UpsertKeys(latest: seq<FeatureRow>, f: FeatureRow, key: Series)
    requires SeriesKey(f) != key && forall i :: 0 <= i < |latest| ==> SeriesKey(latest[i]) != key
    ensures forall i :: 0 <= i < |Upsert(latest, f)| ==> SeriesKey(Upsert(latest, f)[i]) != key
  {
    if latest != [] && SeriesKey(latest[0]) != SeriesKey(f) {
      UpsertKeys(latest[1..], f, key);
    }
  }

  /** The candidates are one row per series, taken from the rows, and no counted row is later than its candidate. */
  lemma {:induction false} LatestIsLatest(lib: Library, decision: string, rows: seq<FeatureRow>)
    ensures var latest := LatestOf(lib, decision, rows);
            && OnePerSeries(latest)
            && (forall g :: g in latest ==> g in rows && Counted(lib, decision, g))
            && (forall g :: g in rows && Counted(lib, decision, g) ==> Covers(latest, g))
  {
    if rows != [] {
      var before := rows[..|rows| - 1];
      var last := rows[|rows| - 1];
      LatestIsLatest(lib, decision, before);
      assert forall g :: g in rows <==> g in before || g == last by {
        assert rows == before + [last];
      }
      if Counted(lib, decision, last) {
        UpsertShape(LatestOf(lib, decision, before), last);
      }
    }
  }

  // ----- Quality filter

  function HistoryCount(lib: Library, decision: string, rows: seq<FeatureRow>, key: Series): (r: nat) {
    if rows == [] then 0
    else
      HistoryCount(lib, decision, rows[..|rows| - 1], key)
      + (if Counted(lib, decision, rows[|rows| - 1]) && SeriesKey(rows[|rows| - 1]) == key then 1 else 0)
  }

  /** `_history_counts` */
  method HistoryCounts(lib: Library, decision: string, rows: seq<FeatureRow>) returns (counts: map<Series, nat>)
    ensures forall key :: GetOr(counts, key, 0) == HistoryCount(lib, decision, rows, key)
  {
    counts := map[];
    for i := 0 to |rows|
      invariant forall key :: GetOr(counts, key, 0) == HistoryCount(lib, decision, rows[..i], key)
    {
      assert rows[..i + 1][..i] == rows[..i];
      if Counted(lib, decision, rows[i]) {
        var key := SeriesKey(rows[i]);
        counts := counts[key := GetOr(counts, key, 0) + 1];
      }
    }
    assert rows[..|rows|] == rows;
  }

  datatype Reason = InsufficientHistory | LowVolume | ReturnLimit | VolatilityLimit | InvalidOhlc

  function Abs(x: real): (r: real) {
    if x < 0.0 then -x else x
  }

  /** Open, high, low and close are consistent and the close is positive. */
  predicate SoundOhlc(row: DailyRow) {
    && row.close.Some? && 0.0 < row.close.value
    && (row.high.Some? ==> row.close.value <= row.high.value && (row.open.Some? ==> row.open.value <= row.high.value))
    && (row.low.Some? ==> row.low.value <= row.close.value && (row.open.Some? ==> row.low.value <= row.open.value))
  }

  /** The first check a candidate fails, if any. The history is looked up under the symbol as it stands. */
  function Verdict(q: Quality, lib: Library, decision: string, features: seq<FeatureRow>, f: FeatureRow)
    : (r: Option<Reason>)
  {
    if HistoryCount(lib, decision, features, SeriesOf(f.daily)) < q.minHistory then Some(InsufficientHistory)
    else if GetVolume(f.daily) < q.minVolume then Some(LowVolume)
    else if f.return1d.Some? && Abs(f.return1d.value) > q.maxAbsReturn then Some(ReturnLimit)
    else if f.volatility.Some? && f.volatility.value > q.maxVolatility then Some(VolatilityLimit)
    else if !SoundOhlc(f.daily) then Some(InvalidOhlc)
    else None
  }

  function GetVolume(row: DailyRow): (r: real) {
    if row.volume.None? then 0.0 else row.volume.value
  }

  datatype AuditRow = AuditRow(market: string, symbol: string, tradeDate: string, availableAt: Option<string>,
                               reason: Reason)

  function Kept(q: Quality, lib: Library, decision: string, features: seq<FeatureRow>, candidates: seq<FeatureRow>)
    : (r: seq<FeatureRow>)
  {
    if candidates == [] then []
    else
      var last := candidates[|candidates| - 1];
      Kept(q, lib, decision, features, candidates[..|candidates| - 1])
      + (if Verdict(q, lib, decision, features, last).None? then [last] else [])
  }

  function Audited(q: Quality, lib: Library, decision: string, features: seq<FeatureRow>, candidates: seq<FeatureRow>)
    : (r: seq<AuditRow>)
  {
    if candidates == [] then []
    else
      var last := candidates[|candidates| - 1];
      var verdict := Verdict(q, lib, decision, features, last);
      Audited(q, lib, decision, features, candidates[..|candidates| - 1])
      + (if verdict.None? then []
         else [AuditRow(last.daily.market, last.daily.symbol, last.daily.tradeDate, last.daily.availableAt,
                        verdict.value)])
  }

  /** `_filter_candidates`; every candidate is either kept or audited with one reason. */
  method FilterCandidates(q: Quality, lib: Library, decision: string, features: seq<FeatureRow>,
                          candidates: seq<FeatureRow>)
    returns (selected: seq<FeatureRow>, audit: seq<AuditRow>)
    ensures selected == Kept(q, lib, decision, features, candidates)
    ensures audit == Audited(q, lib, decision, features, candidates)
    ensures |selected| + |audit| == |candidates|
  {
    var counts := HistoryCounts(lib, decision, features);
    hide HistoryCount;
    selected, audit := [], [];
    for i := 0 to |candidates|
      invariant selected == Kept(q, lib, decision, features, candidates[..i])
      invariant audit == Audited(q, lib, decision, features, candidates[..i])
      invariant |selected| + |audit| == i
    {
      assert candidates[..i + 1][..i] == candidates[..i];
      var f := candidates[i];
      var reason: Option<Reason> := None;
      if GetOr(counts, SeriesOf(f.daily), 0) < q.minHistory {
        reason := Some(InsufficientHistory);
      } else if GetVolume(f.daily) < q.minVolume {
        reason := Some(LowVolume);
      } else if f.return1d.Some? && Abs(f.return1d.value) > q.maxAbsReturn {
        reason := Some(ReturnLimit);
      } else if f.volatility.Some? && f.volatility.value > q.maxVolatility {
        reason := Some(VolatilityLimit);
      } else if !SoundOhlc(f.daily) {
        reason := Some(InvalidOhlc);
      }
      if reason.Some? {
        audit := audit + [AuditRow(f.daily.market, f.daily.symbol, f.daily.tradeDate, f.daily.availableAt,
                                   reason.value)];
      } else {
        selected := selected + [f];
      }
    }
    assert candidates[..|candidates|] == candidates;
  }

  // ----- The whole pipeline

  datatype PipelineError = InvalidDecisionTime | FeatureFailure(error: FeatureError)

  datatype Output = Output(
    features: seq<FeatureRow>, candidates: seq<FeatureRow>, audit: seq<AuditRow>, portfolio: seq<RankedRow>)

  function DailyKey(row: DailyRow): (r: Key) {
    Key(row.market, row.symbol, row.tradeDate)
  }

  predicate DailyLe(a: DailyRow, b: DailyRow) {
    KeyLe(DailyKey(a), DailyKey(b))
  }

  lemma DailyLeIsPreorder()
    ensures TotalPreorder(DailyLe)
  {
    ByKeyIsPreorder(DailyLe, DailyKey);
  }

  /** Everything after validation: the validated rows, and the checksum stamped on every row. */
  function Recommended(lib: Library, s: Settings, decision: string, pit: seq<DailyRow>, checksum: Checksum)
    : (r: Result<Output, PipelineError>)
  {
    match Built(lib, s.windows, decision, pit, checksum)
    case Err(error) => Err(FeatureFailure(error))
    case Ok(features) =>
      var candidates := Candidates(lib, decision, features);
      var kept := Kept(s.quality, lib, decision, features, candidates);
      Ok(Output(features, candidates, Audited(s.quality, lib, decision, features, candidates),
                Constructed(s.portfolio, Ranked(lib, s.weights, decision, kept))))
  }

  /** The checksum is taken over all rows, whether or not they are available yet. */
  function FromDaily(lib: Library, s: Settings, decision: string, rows: seq<DailyRow>)
    : (r: Result<Output, PipelineError>)
  {
    if !lib.parse(decision).Aware? then Err(InvalidDecisionTime)
    else
      var ordered := Sort(rows, DailyLe);
      Recommended(lib, s, decision, Filter(ordered, Pit(lib, lib.parse(decision).at)), ordered)
  }

  /** Sorting changes none of the counts. */
  lemma SortedCounts(lib: Library, decision: Instant, rows: seq<DailyRow>)
    ensures |Sort(rows, DailyLe)| == |rows|
    ensures decision.Aware? ==>
              && |Filter(Sort(rows, DailyLe), Pit(lib, decision.at))| == |Filter(rows, Pit(lib, decision.at))|
              && |Filter(Sort(rows, DailyLe), Late(lib, decision.at))| == |Filter(rows, Late(lib, decision.at))|
  {
    SortElements(rows, DailyLe);
    DailyLeIsPreorder();
    if decision.Aware? {
      FilterSort(rows, DailyLe, Pit(lib, decision.at));
      FilterSort(rows, DailyLe, Late(lib, decision.at));
      SortElements(Filter(rows, Pit(lib, decision.at)), DailyLe);
      SortElements(Filter(rows, Late(lib, decision.at)), DailyLe);
    }
  }

  /** `build_from_daily`, without the stores it writes to. */
  method BuildFromDaily(lib: Library, s: Settings, decision: string, rows: seq<DailyRow>)
    returns (r: Result<Output, PipelineError>, report: PitReport)
    requires ValidWindows(s.windows) && ValidConfig(s.portfolio)
    ensures r == FromDaily(lib, s, decision, rows)
    ensures lib.parse(decision).Aware? ==>
              var at := lib.parse(decision).at;
              Reports(report, |rows|, |Filter(rows, Pit(lib, at))|, |Filter(rows, Late(lib, at))|)
  {
    SortedCounts(lib, lib.parse(decision), rows);
    hide Sort, Filter, Built, Candidates, Kept, Audited, Constructed, Ranked;
    report := PitReport(0, 0, 0, 0, 0);
    if !lib.parse(decision).Aware? {
      return Err(InvalidDecisionTime), report;
    }
    var ordered := Sort(rows, DailyLe);
    var pit;
    pit, report := Validate(lib, lib.parse(decision).at, ordered);
    var features := Features.Build(lib, s.windows, decision, pit, ordered);
    if features.Err? {
      return Err(FeatureFailure(features.error)), report;
    }
    var candidates := LatestCandidates(lib, decision, features.value);
    var kept, audit := FilterCandidates(s.quality, lib, decision, features.value, candidates);
    var ranked := Rank(lib, s.weights, decision, kept);
    var portfolio := new RankedRow[|ranked|](i requires 0 <= i < |ranked| => ranked[i]);
    assert portfolio[..] == ranked;
    ConstructPortfolio(s.portfolio, portfolio);
    r := Ok(Output(features.value, candidates, audit, portfolio[..]));
  }
}
