/** Point-in-time features of daily rows (`features.py`). */
module Features {
  import opened Base
  import opened Sorting
  import opened Recommendation

  datatype FeatureConfig = FeatureConfig(momentumWindow: nat, volatilityWindow: nat, volumeWindow: nat)

  predicate ValidWindows(w: FeatureConfig) {
    1 <= w.momentumWindow && 1 <= w.volatilityWindow && 1 <= w.volumeWindow
  }

  datatype FeatureError = MissingClose

  /** The engine's own availability filter: a naive timestamp counts as UTC. */
  predicate Available(lib: Library, decision: string, row: DailyRow) {
    var text := GetText(row.availableAt);
    && !lib.parse(text).Unreadable? && !lib.parse(decision).Unreadable?
    && lib.parse(text).at <= lib.parse(decision).at
  }

  datatype Series = Series(market: string, symbol: string)

  function SeriesOf(row: DailyRow): (r: Series) {
    Series(row.market, row.symbol)
  }

  predicate DateLe(a: DailyRow, b: DailyRow) {
    StringLe(a.tradeDate, b.tradeDate)
  }

  predicate AllClosed(items: seq<DailyRow>) {
    forall i :: 0 <= i < |items| ==> items[i].close.Some?
  }

  function Closes(items: seq<DailyRow>): (closes: seq<real>)
    requires AllClosed(items)
    ensures |closes| == |items|
  {
    seq(|items|, i requires 0 <= i < |items| => items[i].close.value)
  }

  function From(i: nat, window: nat): (r: nat) {
    if i < window then 0 else i - window
  }

  /** The volumes reported in a window. */
  function Volumes(items: seq<DailyRow>): (r: seq<real>) {
    if items == [] then []
    else
      Volumes(items[..|items| - 1])
      + (if items[|items| - 1].volume.Some? then [items[|items| - 1].volume.value] else [])
  }

  function Sum(xs: seq<real>): (r: real) {
    if xs == [] then 0.0 else Sum(xs[..|xs| - 1]) + xs[|xs| - 1]
  }

  function RelativeChange(before: real, now: real): (r: Option<real>) {
    if before == 0.0 then None else Some(now / before - 1.0)
  }

  function VolumeRatio(volume: Option<real>, recent: seq<real>): (r: Option<real>) {
    if volume.None? || volume.value == 0.0 || recent == [] || Sum(recent) == 0.0 then None
    else Some(volume.value / (Sum(recent) / |recent| as real))
  }

  /** The features of the i-th row of one series; the windows end at that row. */
  function FeatureAt(lib: Library, w: FeatureConfig, items: seq<DailyRow>, i: nat, checksum: Checksum): (r: FeatureRow)
    requires i < |items| && AllClosed(items)
  {
    var closes := Closes(items);
    FeatureRow(
      items[i],
      if i == 0 then None else RelativeChange(closes[i - 1], closes[i]),
      if i < w.momentumWindow then None else RelativeChange(closes[i - w.momentumWindow], closes[i]),
      lib.volatility(closes[From(i, w.volatilityWindow)..i + 1]),
      VolumeRatio(items[i].volume, Volumes(items[From(i + 1, w.volumeWindow)..i + 1])),
      checksum)
  }

  function SeriesFeatures(lib: Library, w: FeatureConfig, items: seq<DailyRow>, checksum: Checksum)
    : (out: seq<FeatureRow>)
    requires AllClosed(items)
    ensures |out| == |items|
  {
    seq(|items|, i requires 0 <= i < |items| => FeatureAt(lib, w, items, i, checksum))
  }

  // ----- Grouping

  /** The series in the order they first occur. */
  function SeriesIn(rows: seq<DailyRow>): (r: seq<Series>) {
    if rows == [] then []
    else
      var before := SeriesIn(rows[..|rows| - 1]);
      if SeriesOf(rows[|rows| - 1]) in before then before else before + [SeriesOf(rows[|rows| - 1])]
  }

  function RowsOf(rows: seq<DailyRow>, s: Series): (r: seq<DailyRow>) {
    if rows == [] then []
    else RowsOf(rows[..|rows| - 1], s) + (if SeriesOf(rows[|rows| - 1]) == s then [rows[|rows| - 1]] else [])
  }

  function AvailableRows(lib: Library, decision: string, rows: seq<DailyRow>): (r: seq<DailyRow>) {
    if rows == [] then []
    else
      AvailableRows(lib, decision, rows[..|rows| - 1])
      + (if Available(lib, decision, rows[|rows| - 1]) then [rows[|rows| - 1]] else [])
  }

  /** The features of the given series, one after the other; a row without a close stops the build. */
  function GroupFeatures(lib: Library, w: FeatureConfig, rows: seq<DailyRow>, series: seq<Series>, checksum: Checksum)
    : (r: Result<seq<FeatureRow>, FeatureError>)
  {
    if series == [] then Ok([])
    else
      var before := GroupFeatures(lib, w, rows, series[..|series| - 1], checksum);
      var items := Sort(RowsOf(rows, series[|series| - 1]), DateLe);
      if before.Err? then before
      else if !AllClosed(items) then Err(MissingClose)
      else Ok(before.value + SeriesFeatures(lib, w, items, checksum))
  }

  function Built(lib: Library, w: FeatureConfig, decision: string, rows: seq<DailyRow>, checksum: Checksum)
    : (r: Result<seq<FeatureRow>, FeatureError>)
  {
    var available := AvailableRows(lib, decision, rows);
    GroupFeatures(lib, w, available, SeriesIn(available), checksum)
  }

  // ----- The method

  method Group(lib: Library, decision: string, rows: seq<DailyRow>)
    returns (series: seq<Series>, groups: map<Series, seq<DailyRow>>)
    ensures series == SeriesIn(AvailableRows(lib, decision, rows))
    ensures groups.Keys == set s | s in series
    ensures forall s :: s in groups ==> groups[s] == RowsOf(AvailableRows(lib, decision, rows), s)
  {
    series, groups := [], map[];
    for i := 0 to |rows|
      invariant series == SeriesIn(AvailableRows(lib, decision, rows[..i]))
      invariant forall s :: s in groups <==> s in series
      invariant forall s :: GetOr(groups, s, []) == RowsOf(AvailableRows(lib, decision, rows[..i]), s)
    {
      ghost var before := AvailableRows(lib, decision, rows[..i]);
      assert rows[..i + 1][..i] == rows[..i];
      if Available(lib, decision, rows[i]) {
        ghost var after := AvailableRows(lib, decision, rows[..i + 1]);
        assert after == before + [rows[i]] && after[..|before|] == before;
        var s := SeriesOf(rows[i]);
        if s !in groups {
          series := series + [s];
        }
        groups := groups[s := GetOr(groups, s, []) + [rows[i]]];
      } else {
        assert AvailableRows(lib, decision, rows[..i + 1]) == before;
      }
    }
    assert rows[..|rows|] == rows;
  }

  method Build(lib: Library, w: FeatureConfig, decision: string, rows: seq<DailyRow>, checksum: Checksum)
    returns (r: Result<seq<FeatureRow>, FeatureError>)
    requires ValidWindows(w)
    ensures r == Built(lib, w, decision, rows, checksum)
  {
    ghost var available := AvailableRows(lib, decision, rows);
    var series, groups := Group(lib, decision, rows);
    hide SeriesIn, AvailableRows, RowsOf, FeatureAt;
    var output: seq<FeatureRow> := [];
    for k := 0 to |series|
      invariant GroupFeatures(lib, w, available, series[..k], checksum) == Ok(output)
    {
      assert series[k] in groups.Keys;
      assert series[..k + 1][..k] == series[..k] && series[..k + 1][k] == series[k];
      var items := Sort(groups[series[k]], DateLe);
      if exists i :: 0 <= i < |items| && items[i].close.None? {
        GroupFeaturesStop(lib, w, available, series, checksum, k + 1);
        return Err(MissingClose);
      }
      var before := output;
      for i := 0 to |items|
        invariant output == before + SeriesFeatures(lib, w, items, checksum)[..i]
      {
        output := output + [FeatureAt(lib, w, items, i, checksum)];
      }
      assert SeriesFeatures(lib, w, items, checksum)[..|items|] == SeriesFeatures(lib, w, items, checksum);
    }
    assert series[..|series|] == series;
    r := Ok(output);
  }

  lemma {:induction false} GroupFeaturesStop(
    lib: Library, w: FeatureConfig, rows: seq<DailyRow>, series: seq<Series>, checksum: Checksum, k: nat)
    requires k <= |series| && GroupFeatures(lib, w, rows, series[..k], checksum).Err?
    ensures GroupFeatures(lib, w, rows, series, checksum) == Err(MissingClose)
    decreases |series| - k
  {
    if k < |series| {
      assert series[..k + 1][..k] == series[..k];
      GroupFeaturesStop(lib, w, rows, series, checksum, k + 1);
    } else {
      assert series[..k] == series;
      OnlyMissingClose(lib, w, rows, series, checksum);
    }
  }

  lemma {:induction false} OnlyMissingClose(
    lib: Library, w: FeatureConfig, rows: seq<DailyRow>, series: seq<Series>, checksum: Checksum)
    requires GroupFeatures(lib, w, rows, series, checksum).Err?
    ensures GroupFeatures(lib, w, rows, series, checksum) == Err(MissingClose)
  {
    match GroupFeatures(lib, w, rows, series, checksum).error
    case MissingClose =>
  }

  // ----- No row of a series sees a later one

  /** The features of a row depend only on the rows up to it. */
  lemma FeatureSeesOnlyPast(lib: Library, w: FeatureConfig, items: seq<DailyRow>, n: nat, i: nat, checksum: Checksum)
    requires i < n <= |items| && AllClosed(items)
    ensures FeatureAt(lib, w, items[..n], i, checksum) == FeatureAt(lib, w, items, i, checksum)
  {
    var closes, past := Closes(items), Closes(items[..n]);
    assert past == closes[..n];
    assert past[From(i, w.volatilityWindow)..i + 1] == closes[From(i, w.volatilityWindow)..i + 1];
    assert items[..n][From(i + 1, w.volumeWindow)..i + 1] == items[From(i + 1, w.volumeWindow)..i + 1];
  }

  lemma {:induction false} InsertBefore(x: DailyRow, s: seq<DailyRow>, t: seq<DailyRow>)
    requires forall b :: b in t ==> DateLe(x, b)
    ensures Insert(x, s + t, DateLe) == Insert(x, s, DateLe) + t
  {
    hide DateLe, Insert;
    if s == [] {
      assert s + t == t;
      InsertFirst(x, t);
      InsertFirst(x, []);
      assert [x] + [] + t == [x] + t;
    } else {
      InsertHead(x, s[0], s[1..]);
      InsertHead(x, s[0], s[1..] + t);
      InsertBefore(x, s[1..], t);
      assert s == [s[0]] + s[1..] && s + t == [s[0]] + (s[1..] + t);
      Regrouped(x, s[0], s[1..], Insert(x, s[1..], DateLe), t);
    }
  }

  lemma Regrouped(x: DailyRow, y: DailyRow, s: seq<DailyRow>, inserted: seq<DailyRow>, t: seq<DailyRow>)
    ensures [x] + ([y] + (s + t)) == [x] + ([y] + s) + t
    ensures [y] + (inserted + t) == [y] + inserted + t
  {
  }

  lemma InsertFirst(x: DailyRow, t: seq<DailyRow>)
    requires forall b :: b in t ==> DateLe(x, b)
    ensures Insert(x, t, DateLe) == [x] + t
  {
    if t != [] {
      assert t[0] in t;
    }
  }

  lemma InsertHead(x: DailyRow, y: DailyRow, s: seq<DailyRow>)
    ensures Insert(x, [y] + s, DateLe) == if DateLe(x, y) then [x] + ([y] + s) else [y] + Insert(x, s, DateLe)
  {
    assert ([y] + s)[1..] == s;
  }

  /** Sorting an older and a newer part together is sorting each and appending. */
  lemma {:induction false} SortOlderNewer(older: seq<DailyRow>, newer: seq<DailyRow>)
    requires forall a, b :: a in older && b in newer ==> DateLe(a, b)
    ensures Sort(older + newer, DateLe) == Sort(older, DateLe) + Sort(newer, DateLe)
  {
    if older == [] {
      assert older + newer == newer;
    } else {
      SortOlderNewer(older[1..], newer);
      assert (older + newer)[1..] == older[1..] + newer;
      SortElements(newer, DateLe);
      assert older[0] in older;
      InsertBefore(older[0], Sort(older[1..], DateLe), Sort(newer, DateLe));
    }
  }

  /** Observations of later trade dates never change the features of the earlier ones. */
  lemma LaterRowsChangeNothing(
    lib: Library, w: FeatureConfig, older: seq<DailyRow>, newer: seq<DailyRow>, checksum: Checksum)
    requires forall a, b :: a in older && b in newer ==> DateLe(a, b)
    requires AllClosed(Sort(older + newer, DateLe))
    ensures AllClosed(Sort(older, DateLe))
    ensures |older| <= |Sort(older + newer, DateLe)|
    ensures SeriesFeatures(lib, w, Sort(older + newer, DateLe), checksum)[..|older|]
            == SeriesFeatures(lib, w, Sort(older, DateLe), checksum)
  {
    SortOlderNewer(older, newer);
    SortElements(older, DateLe);
    var all, first := Sort(older + newer, DateLe), Sort(older, DateLe);
    assert first == all[..|older|];
    assert forall i :: 0 <= i < |first| ==> first[i] == all[i];
    hide FeatureAt;
    forall i | 0 <= i < |older|
      ensures FeatureAt(lib, w, all, i, checksum) == FeatureAt(lib, w, first, i, checksum)
    {
      FeatureSeesOnlyPast(lib, w, all, |older|, i, checksum);
    }
  }
}
