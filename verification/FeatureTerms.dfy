/** What each built feature is, in terms of the rows of its series (`features.py`). */
module FeatureTerms {
  import opened Base
  import opened Sorting
  import opened Recommendation
  import opened Features

  // ----- One feature

  /** `change` takes `before` to `now`; there is none from zero. */
  predicate Takes(change: Option<real>, before: real, now: real) {
    if before == 0.0 then change.None? else change.Some? && before * (1.0 + change.value) == now
  }

  /** The volume reported by the rows from `i` to before `j`. */
  function VolumeIn(items: seq<DailyRow>, i: nat, j: nat): (total: real)
    requires i <= j <= |items|
  {
    if i == j then 0.0
    else VolumeIn(items, i, j - 1) + (if items[j - 1].volume.Some? then items[j - 1].volume.value else 0.0)
  }

  /** How many of them report one. */
  function ReportsIn(items: seq<DailyRow>, i: nat, j: nat): (n: nat)
    requires i <= j <= |items|
  {
    if i == j then 0 else ReportsIn(items, i, j - 1) + (if items[j - 1].volume.Some? then 1 else 0)
  }

  /** The closes of at most `window` rows before row `i`, and of row `i`. */
  predicate ClosesTo(items: seq<DailyRow>, i: nat, window: nat, closes: seq<real>)
    requires i < |items|
  {
    && |closes| == (if i < window then i else window) + 1
    && forall k :: 0 <= k < |closes| ==> Some(closes[k]) == items[i + 1 - |closes| + k].close
  }

  /** The volume against the mean of the volumes reported in the last `window` rows, of which row `i` is one. */
  predicate RatioMeans(items: seq<DailyRow>, i: nat, window: nat, ratio: Option<real>)
    requires i < |items|
  {
    var from := if i + 1 < window then 0 else i + 1 - window;
    AgainstMean(items[i].volume, VolumeIn(items, from, i + 1), ReportsIn(items, from, i + 1), ratio)
  }

  predicate AgainstMean(volume: Option<real>, total: real, n: nat, ratio: Option<real>) {
    if volume.None? || volume.value == 0.0 || n == 0 || total == 0.0 then ratio.None?
    else ratio.Some? && ratio.value * total == volume.value * n as real
  }

  ghost predicate FeatureMeans(
    lib: Library, w: FeatureConfig, items: seq<DailyRow>, i: nat, checksum: Checksum, f: FeatureRow)
    requires i < |items| && AllClosed(items)
  {
    && f.daily == items[i] && f.checksum == checksum
    && (if i == 0 then f.return1d.None? else Takes(f.return1d, items[i - 1].close.value, items[i].close.value))
    && (if i < w.momentumWindow then f.momentum.None?
        else Takes(f.momentum, items[i - w.momentumWindow].close.value, items[i].close.value))
    && (exists closes :: ClosesTo(items, i, w.volatilityWindow, closes) && f.volatility == lib.volatility(closes))
    && RatioMeans(items, i, w.volumeWindow, f.volumeRatio)
  }

  lemma ChangeTakes(before: real, now: real)
    ensures Takes(RelativeChange(before, now), before, now)
  {
    if before != 0.0 {
      assert now / before * before == now;
    }
  }

  lemma {:induction false} VolumesOf(items: seq<DailyRow>, i: nat, j: nat)
    requires i <= j <= |items|
    ensures Sum(Volumes(items[i..j])) == VolumeIn(items, i, j) && |Volumes(items[i..j])| == ReportsIn(items, i, j)
  {
    var window := items[i..j];
    if i < j {
      VolumesOf(items, i, j - 1);
      assert window[..|window| - 1] == items[i..j - 1];
      if items[j - 1].volume.Some? {
        assert Volumes(window)[..|Volumes(window)| - 1] == Volumes(items[i..j - 1]);
      } else {
        assert Volumes(window) == Volumes(items[i..j - 1]);
      }
    }
  }

  lemma MeanRatio(volume: real, total: real, n: nat)
    requires total != 0.0 && n != 0
    ensures total / n as real != 0.0 && volume / (total / n as real) * total == volume * n as real
  {
    var k := n as real;
    var mean := total / k;
    assert mean * k == total;
    var ratio := volume / mean;
    assert ratio * mean == volume;
    assert ratio * (mean * k) == ratio * mean * k;
  }

  lemma RatioAt(items: seq<DailyRow>, i: nat, window: nat)
    requires i < |items|
    ensures RatioMeans(items, i, window, VolumeRatio(items[i].volume, Volumes(items[From(i + 1, window)..i + 1])))
  {
    VolumesOf(items, From(i + 1, window), i + 1);
    hide Sum, Volumes, VolumeIn, ReportsIn, AgainstMean, VolumeRatio;
    RatioAgainstMean(items[i].volume, Volumes(items[From(i + 1, window)..i + 1]));
  }

  lemma RatioAgainstMean(volume: Option<real>, recent: seq<real>)
    ensures AgainstMean(volume, Sum(recent), |recent|, VolumeRatio(volume, recent))
  {
    hide Sum;
    if recent != [] && Sum(recent) != 0.0 && volume.Some? {
      MeanRatio(volume.value, Sum(recent), |recent|);
    }
  }

  /** Each feature of a series, from its closes and volumes. */
  lemma FeatureAtMeans(lib: Library, w: FeatureConfig, items: seq<DailyRow>, i: nat, checksum: Checksum)
    requires i < |items| && AllClosed(items)
    ensures FeatureMeans(lib, w, items, i, checksum, FeatureAt(lib, w, items, i, checksum))
  {
    hide RelativeChange, VolumeRatio, Volumes, RatioMeans, Takes;
    var closes := Closes(items);
    if i > 0 {
      ChangeTakes(closes[i - 1], closes[i]);
    }
    if i >= w.momentumWindow {
      ChangeTakes(closes[i - w.momentumWindow], closes[i]);
    }
    assert ClosesTo(items, i, w.volatilityWindow, closes[From(i, w.volatilityWindow)..i + 1]);
    RatioAt(items, i, w.volumeWindow);
  }

  // ----- The rows of a series

  /** The row was available at the decision; a naive timestamp counts as UTC. */
  predicate Seen(lib: Library, decision: string, r: DailyRow) {
    var at, now := lib.parse(if r.availableAt.None? then "" else r.availableAt.value), lib.parse(decision);
    !at.Unreadable? && !now.Unreadable? && at.at <= now.at
  }

  /**
   * `items` are the available rows of one market and symbol, each as often as it arrived, in the order of their dates.
   */
  ghost predicate IsSeries(
    lib: Library, decision: string, rows: seq<DailyRow>, market: string, symbol: string, items: seq<DailyRow>)
  {
    && (forall i, j :: 0 <= i < j < |items| ==> StringLe(items[i].tradeDate, items[j].tradeDate))
    && (forall r :: multiset(items)[r] ==
          if Seen(lib, decision, r) && r.market == market && r.symbol == symbol then multiset(rows)[r] else 0)
  }

  lemma {:induction false} AvailableMeans(lib: Library, decision: string, rows: seq<DailyRow>)
    ensures forall r :: multiset(AvailableRows(lib, decision, rows))[r]
                        == if Seen(lib, decision, r) then multiset(rows)[r] else 0
  {
    if rows != [] {
      AvailableMeans(lib, decision, rows[..|rows| - 1]);
      assert rows == rows[..|rows| - 1] + [rows[|rows| - 1]];
    }
  }

  lemma {:induction false} RowsOfMeans(rows: seq<DailyRow>, s: Series)
    ensures forall r :: multiset(RowsOf(rows, s))[r]
                        == if r.market == s.market && r.symbol == s.symbol then multiset(rows)[r] else 0
  {
    if rows != [] {
      RowsOfMeans(rows[..|rows| - 1], s);
      assert rows == rows[..|rows| - 1] + [rows[|rows| - 1]];
    }
  }

  lemma DateLeIsPreorder()
    ensures TotalPreorder(DateLe)
  {
    forall a: DailyRow, b: DailyRow
      ensures DateLe(a, b) || DateLe(b, a)
    {
      StringLeTotal(a.tradeDate, b.tradeDate);
    }
    forall a: DailyRow, b: DailyRow, c: DailyRow | DateLe(a, b) && DateLe(b, c)
      ensures DateLe(a, c)
    {
      StringLeTransitive(a.tradeDate, b.tradeDate, c.tradeDate);
    }
  }

  lemma SortedSeries(lib: Library, decision: string, rows: seq<DailyRow>, s: Series)
    ensures IsSeries(lib, decision, rows, s.market, s.symbol,
                     Sort(RowsOf(AvailableRows(lib, decision, rows), s), DateLe))
  {
    hide Seen, Sort, RowsOf, AvailableRows;
    var available := AvailableRows(lib, decision, rows);
    var items := Sort(RowsOf(available, s), DateLe);
    AvailableMeans(lib, decision, rows);
    RowsOfMeans(available, s);
    SortElements(RowsOf(available, s), DateLe);
    DateLeIsPreorder();
    SortSorts(RowsOf(available, s), DateLe);
    forall i, j | 0 <= i < j < |items|
      ensures StringLe(items[i].tradeDate, items[j].tradeDate)
    {
      assert DateLe(items[i], items[j]);
    }
  }

  // ----- The whole build

  /** The feature is the one of its row, in the series of that row. */
  ghost predicate StandsFor(
    lib: Library, w: FeatureConfig, decision: string, rows: seq<DailyRow>, checksum: Checksum, f: FeatureRow)
  {
    exists items, i ::
      && IsSeries(lib, decision, rows, f.daily.market, f.daily.symbol, items)
      && 0 <= i < |items| && AllClosed(items) && FeatureMeans(lib, w, items, i, checksum, f)
  }

  lemma SeriesStand(
    lib: Library, w: FeatureConfig, decision: string, rows: seq<DailyRow>, s: Series, checksum: Checksum, i: nat)
    requires var items := Sort(RowsOf(AvailableRows(lib, decision, rows), s), DateLe);
             AllClosed(items) && i < |items|
    ensures var items := Sort(RowsOf(AvailableRows(lib, decision, rows), s), DateLe);
            StandsFor(lib, w, decision, rows, checksum, FeatureAt(lib, w, items, i, checksum))
  {
    hide FeatureAt, FeatureMeans, Sort, RowsOf, AvailableRows;
    var items := Sort(RowsOf(AvailableRows(lib, decision, rows), s), DateLe);
    SortedSeries(lib, decision, rows, s);
    FeatureAtMeans(lib, w, items, i, checksum);
    assert FeatureAt(lib, w, items, i, checksum).daily == items[i] by { IsItsRow(lib, w, items, i, checksum); }
    assert items[i] in multiset(items);
    assert items[i].market == s.market && items[i].symbol == s.symbol;
  }

  lemma IsItsRow(lib: Library, w: FeatureConfig, items: seq<DailyRow>, i: nat, checksum: Checksum)
    requires i < |items| && AllClosed(items)
    ensures FeatureAt(lib, w, items, i, checksum).daily == items[i]
  {
  }

  function Dailies(features: seq<FeatureRow>): (rows: seq<DailyRow>) {
    seq(|features|, i requires 0 <= i < |features| => features[i].daily)
  }

  /** What the features of some series are made of, and when there are none. */
  ghost predicate GroupsStand(
    lib: Library, w: FeatureConfig, decision: string, rows: seq<DailyRow>, series: seq<Series>, checksum: Checksum,
    built: Result<seq<FeatureRow>, FeatureError>)
  {
    && (built.Err? <==> exists r :: r in rows && Seen(lib, decision, r) && SeriesOf(r) in series && r.close.None?)
    && (built.Ok? ==>
          && (forall f :: f in built.value ==> StandsFor(lib, w, decision, rows, checksum, f))
          && (forall r :: multiset(Dailies(built.value))[r]
                          == if Seen(lib, decision, r) && SeriesOf(r) in series then multiset(rows)[r] else 0))
  }

  predicate AllDistinct(series: seq<Series>) {
    forall i, j :: 0 <= i < j < |series| ==> series[i] != series[j]
  }

  lemma ClosedMeans(lib: Library, decision: string, rows: seq<DailyRow>, s: Series)
    ensures AllClosed(Sort(RowsOf(AvailableRows(lib, decision, rows), s), DateLe)) <==>
            !exists r :: r in rows && Seen(lib, decision, r) && SeriesOf(r) == s && r.close.None?
  {
    hide Sort, RowsOf, AvailableRows, Seen;
    var items := Sort(RowsOf(AvailableRows(lib, decision, rows), s), DateLe);
    SortedSeries(lib, decision, rows, s);
    assert forall r :: r in items <==> multiset(items)[r] > 0;
    assert forall r :: r in rows <==> multiset(rows)[r] > 0;
    if !AllClosed(items) {
      var i :| 0 <= i < |items| && items[i].close.None?;
      assert items[i] in items;
    }
    if r :| r in rows && Seen(lib, decision, r) && SeriesOf(r) == s && r.close.None? {
      assert r in items;
    }
  }

  lemma DailiesOfSeries(lib: Library, w: FeatureConfig, items: seq<DailyRow>, checksum: Checksum,
                        before: seq<FeatureRow>)
    requires AllClosed(items)
    ensures Dailies(before + SeriesFeatures(lib, w, items, checksum)) == Dailies(before) + items
  {
    hide FeatureAt;
    forall i | 0 <= i < |items|
      ensures FeatureAt(lib, w, items, i, checksum).daily == items[i]
    {
      IsItsRow(lib, w, items, i, checksum);
    }
  }

  lemma {:induction false} GroupsStandFor(
    lib: Library, w: FeatureConfig, decision: string, rows: seq<DailyRow>, series: seq<Series>, checksum: Checksum)
    requires AllDistinct(series)
    ensures GroupsStand(lib, w, decision, rows, series, checksum,
                        GroupFeatures(lib, w, AvailableRows(lib, decision, rows), series, checksum))
  {
    hide Sort, RowsOf, AvailableRows, Seen, StandsFor, SeriesFeatures, Dailies;
    var available := AvailableRows(lib, decision, rows);
    if series == [] {
      NoDailies();
    } else {
      var n := |series| - 1;
      var s, before := series[n], GroupFeatures(lib, w, available, series[..n], checksum);
      assert series == series[..n] + [s] && s !in series[..n];
      GroupsStandFor(lib, w, decision, rows, series[..n], checksum);
      var items := Sort(RowsOf(available, s), DateLe);
      ClosedMeans(lib, decision, rows, s);
      if before.Ok? && AllClosed(items) {
        OneMoreGroup(lib, w, decision, rows, series[..n], s, checksum, before.value);
      }
    }
  }

  lemma NoDailies()
    ensures multiset(Dailies([])) == multiset{}
  {
  }

  lemma OneMoreGroup(
    lib: Library, w: FeatureConfig, decision: string, rows: seq<DailyRow>, series: seq<Series>, s: Series,
    checksum: Checksum, before: seq<FeatureRow>)
    requires s !in series && GroupsStand(lib, w, decision, rows, series, checksum, Ok(before))
    requires AllClosed(Sort(RowsOf(AvailableRows(lib, decision, rows), s), DateLe))
    ensures var items := Sort(RowsOf(AvailableRows(lib, decision, rows), s), DateLe);
            GroupsStand(lib, w, decision, rows, series + [s], checksum,
                        Ok(before + SeriesFeatures(lib, w, items, checksum)))
  {
    hide Sort, RowsOf, AvailableRows, Seen, StandsFor, SeriesFeatures, Dailies;
    var items := Sort(RowsOf(AvailableRows(lib, decision, rows), s), DateLe);
    ClosedMeans(lib, decision, rows, s);
    SortedSeries(lib, decision, rows, s);
    DailiesOfSeries(lib, w, items, checksum, before);
    SeriesStandAll(lib, w, decision, rows, s, checksum);
  }

  lemma SeriesStandAll(
    lib: Library, w: FeatureConfig, decision: string, rows: seq<DailyRow>, s: Series, checksum: Checksum)
    requires AllClosed(Sort(RowsOf(AvailableRows(lib, decision, rows), s), DateLe))
    ensures var items := Sort(RowsOf(AvailableRows(lib, decision, rows), s), DateLe);
            forall f :: f in SeriesFeatures(lib, w, items, checksum) ==> StandsFor(lib, w, decision, rows, checksum, f)
  {
    hide Sort, RowsOf, AvailableRows, Seen, StandsFor, FeatureAt;
    var items := Sort(RowsOf(AvailableRows(lib, decision, rows), s), DateLe);
    forall i | 0 <= i < |items|
      ensures StandsFor(lib, w, decision, rows, checksum, FeatureAt(lib, w, items, i, checksum))
    {
      SeriesStand(lib, w, decision, rows, s, checksum, i);
    }
  }

  lemma {:induction false} EverySeries(rows: seq<DailyRow>)
    ensures AllDistinct(SeriesIn(rows))
    ensures forall s :: s in SeriesIn(rows) <==> exists r :: r in rows && SeriesOf(r) == s
  {
    hide SeriesOf;
    if rows != [] {
      EverySeries(rows[..|rows| - 1]);
      assert rows == rows[..|rows| - 1] + [rows[|rows| - 1]];
    }
  }

  /**
   * The build fails exactly when an available row has no close. Otherwise there is one feature for each available row,
   * as often as it arrived, and each is what its series says: the return and the momentum take the close of the day
   * before, and of a momentum window before, to the close of the day; the volatility is that of the last closes; and
   * the volume ratio is the volume against the mean of those reported in the window.
   */
  lemma BuiltExactly(lib: Library, w: FeatureConfig, decision: string, rows: seq<DailyRow>, checksum: Checksum)
    ensures var built := Built(lib, w, decision, rows, checksum);
            && (built.Err? <==> exists r :: r in rows && Seen(lib, decision, r) && r.close.None?)
            && (built.Ok? ==>
                  && (forall f :: f in built.value ==> StandsFor(lib, w, decision, rows, checksum, f))
                  && (forall r :: multiset(Dailies(built.value))[r]
                                  == if Seen(lib, decision, r) then multiset(rows)[r] else 0))
  {
    hide GroupFeatures, AvailableRows, Seen, StandsFor, Dailies, SeriesOf, SeriesIn;
    var available := AvailableRows(lib, decision, rows);
    AvailableMeans(lib, decision, rows);
    EverySeries(available);
    GroupsStandFor(lib, w, decision, rows, SeriesIn(available), checksum);
    forall r | r in rows && Seen(lib, decision, r)
      ensures SeriesOf(r) in SeriesIn(available)
    {
      assert multiset(rows)[r] > 0;
      assert r in multiset(available);
    }
  }
}
