/** What a dataset holds and returns, row by row, in terms of market, symbol and trade date (`market_dataset.py`). */
module DatasetRows {
  import opened Base
  import opened Sorting
  import opened DataLake
  import opened MarketDataset

  /**
   * Both rows are about the same instrument and day: market and symbol count without white space, markets without case.
   */
  predicate SameDay(a: Record, b: Record) {
    && Upper(Strip(a.market)) == Upper(Strip(b.market)) && Strip(a.symbol) == Strip(b.symbol)
    && a.tradeDate == b.tradeDate
  }

  lemma SameDayIsSameKey(a: Record, b: Record)
    ensures KeyOf(a) == KeyOf(b) <==> SameDay(a, b)
  {
    hide Strip, Upper;
  }

  /** Keys are ordered by market, symbol and date, as they count. */
  lemma KeysInOrder(a: Record, b: Record)
    ensures var m, n, s, t := Upper(Strip(a.market)), Upper(Strip(b.market)), Strip(a.symbol), Strip(b.symbol);
            KeyedLe(a, b) <==>
            if m != n then StringLe(m, n) else if s != t then StringLe(s, t) else StringLe(a.tradeDate, b.tradeDate)
  {
    hide Strip, Upper;
  }

  /** The row lies in some partition. */
  ghost predicate Stored(parts: Partitions, r: Record) {
    exists name :: name in parts && r in parts[name]
  }

  /** No row from position `i` on is about the same instrument and day. */
  predicate NotReplaced(rows: seq<Record>, i: nat, r: Record) {
    forall j :: i <= j < |rows| ==> !SameDay(rows[j], r)
  }

  /** `r` is one of the rows, and none after it replaces it. */
  ghost predicate BuiltLast(rows: seq<Record>, r: Record) {
    exists i :: 0 <= i < |rows| && rows[i] == r && NotReplaced(rows, i + 1, r)
  }

  lemma {:induction false} OverlayEntries(t: Table, rows: seq<Record>, r: Record)
    requires Keyed(t)
    ensures Stands(Overlay(t, rows), r) <==> BuiltLast(rows, r) || (Stands(t, r) && NotReplaced(rows, 0, r))
  {
    hide KeyOf, SameDay;
    if rows != [] {
      var n := |rows| - 1;
      OverlayEntries(t, rows[..n], r);
      SameDayIsSameKey(rows[n], r);
      OneMoreBuilt(rows, r);
      OverlayKeyed(t, rows, r);
    }
  }

  lemma OverlayKeyed(t: Table, rows: seq<Record>, r: Record)
    requires Keyed(t) && rows != []
    ensures var n := |rows| - 1;
            Stands(Overlay(t, rows), r) <==>
            rows[n] == r || (Stands(Overlay(t, rows[..n]), r) && KeyOf(rows[n]) != KeyOf(r))
  {
  }

  lemma OneMoreBuilt(rows: seq<Record>, r: Record)
    requires rows != []
    ensures var n := |rows| - 1;
            && (BuiltLast(rows, r) <==> rows[n] == r || (BuiltLast(rows[..n], r) && !SameDay(rows[n], r)))
            && (NotReplaced(rows, 0, r) <==> NotReplaced(rows[..n], 0, r) && !SameDay(rows[n], r))
  {
    hide SameDay;
    var n := |rows| - 1;
    var before := rows[..n];
    if rows[n] == r {
      assert NotReplaced(rows, n + 1, r);
    }
    if BuiltLast(before, r) && !SameDay(rows[n], r) {
      var i :| 0 <= i < n && before[i] == r && NotReplaced(before, i + 1, r);
      assert rows[i] == r && NotReplaced(rows, i + 1, r);
    }
    if BuiltLast(rows, r) && rows[n] != r {
      var i :| 0 <= i < |rows| && rows[i] == r && NotReplaced(rows, i + 1, r);
      assert before[i] == r && NotReplaced(before, i + 1, r);
    }
  }

  lemma StoredStands(cal: Calendar, parts: Partitions, t: Table, r: Record)
    requires Holds(cal, parts, t)
    ensures Stands(t, r) <==> Stored(parts, r)
  {
    hide KeyOf;
    if Stands(t, r) {
      assert HasRow(cal, parts, t[KeyOf(r)]);
    }
  }

  /** By market, symbol and date, markets without case. */
  predicate InOrder(a: Record, b: Record) {
    var m, n := Upper(a.market), Upper(b.market);
    if m != n then StringLe(m, n)
    else if a.symbol != b.symbol then StringLe(a.symbol, b.symbol)
    else StringLe(a.tradeDate, b.tradeDate)
  }

  /**
   * What is read: each row that was built and not replaced by a later one, and each that was stored before and not
   * replaced at all, once and in order.
   */
  ghost predicate ReadsBack(rows: seq<Record>, base: Partitions, accepted: seq<Record>) {
    && (forall r :: r in rows <==> BuiltLast(accepted, r) || (Stored(base, r) && NotReplaced(accepted, 0, r)))
    && (forall i, j :: 0 <= i < j < |rows| ==> !SameDay(rows[i], rows[j]) && InOrder(rows[i], rows[j]))
  }

  lemma ReadsBackExactly(cal: Calendar, base: Partitions, t: Table, accepted: seq<Record>, rows: seq<Record>)
    requires Holds(cal, base, t) && Enumerates(rows, Overlay(t, accepted)) && Sorted(rows, ReadLe)
    ensures ReadsBack(rows, base, accepted)
  {
    hide KeyOf, SameDay, Overlay, BuiltLast, NotReplaced, Stored;
    forall r
      ensures r in rows <==> BuiltLast(accepted, r) || (Stored(base, r) && NotReplaced(accepted, 0, r))
    {
      StoredStands(cal, base, t, r);
      OverlayEntries(t, accepted, r);
    }
    forall i, j | 0 <= i < j < |rows|
      ensures !SameDay(rows[i], rows[j]) && InOrder(rows[i], rows[j])
    {
      SameDayIsSameKey(rows[i], rows[j]);
      assert ReadLe(rows[i], rows[j]);
    }
  }

  /**
   * Any sequence of builds, accepted or refused, and then a read: what is read is the initial table overlaid by the
   * rows of the accepted builds, each row once, in order, however the drive lists its folders. Other datasets are not
   * touched.
   */
  method BuildAllAndRead(
    builder: DailyDatasetBuilder, batches: seq<seq<Record>>, dataset: string, drive: (Partitions, nat) -> seq<string>,
    ghost t: Table)
    returns (rows: seq<Record>)
    requires Holds(builder.storage.cal, builder.storage.Of(dataset), t) && ListsFolders(drive)
    modifies builder.storage
    ensures ReadsBack(rows, old(builder.storage.Of(dataset)), AcceptedRows(builder.storage.cal, t, batches))
    ensures Enumerates(rows, Overlay(t, AcceptedRows(builder.storage.cal, t, batches))) && Sorted(rows, ReadLe)
    ensures Holds(builder.storage.cal, builder.storage.Of(dataset), AfterBuilds(builder.storage.cal, t, batches))
    ensures forall other :: other != dataset ==> builder.storage.Of(other) == old(builder.storage.Of(other))
  {
    hide Holds, Enumerates, Gathered, Lists, Accepts, Overlay, Sort, ReadsBack;
    var storage := builder.storage;
    HeldIsKeyed(storage.cal, storage.Of(dataset), t);
    for n := 0 to |batches|
      invariant Holds(storage.cal, storage.Of(dataset), AfterBuilds(storage.cal, t, batches[..n]))
      invariant forall other :: other != dataset ==> storage.Of(other) == old(storage.Of(other))
    {
      assert batches[..n + 1][..n] == batches[..n];
      var listing := drive(storage.Of(dataset), n);
      var built := builder.Build(batches[n], dataset, listing, AfterBuilds(storage.cal, t, batches[..n]));
    }
    assert batches[..|batches|] == batches;
    ghost var now := AfterBuilds(storage.cal, t, batches);
    var listing := drive(storage.Of(dataset), |batches|);
    HeldIsPlaced(storage.cal, storage.Of(dataset), now);
    ListedAreKeys(listing, storage.Of(dataset));
    var read := storage.ReadPartitioned(dataset, listing, []);
    ReadEnumerates(storage.cal, storage.Of(dataset), listing, now);
    ReadLeIsPreorder();
    SortSorts(Gathered(storage.Of(dataset), listing), ReadLe);
    BuildsOverlay(storage.cal, t, batches);
    rows := read.value;
    ReadsBackExactly(storage.cal, old(storage.Of(dataset)), t, AcceptedRows(storage.cal, t, batches), rows);
  }

  /** The text is a date of the day with this canonical name, and not before the first supported day. */
  predicate Names(cal: Calendar, text: string, name: string) {
    cal.day(text).Some? && 0 <= cal.day(text).value && cal.iso(cal.day(text).value) == name
  }

  lemma PartitionMeans(cal: Calendar, text: string, name: string)
    ensures PartitionOf(cal, text) == Some(name) <==> Names(cal, text, name)
  {
  }

  ghost predicate Present(base: Partitions, rows: seq<Record>, r: Record) {
    Stored(base, r) || r in rows
  }

  /** Two rows that are stored or new spell one date in two ways. */
  ghost predicate TwoSpellings(cal: Calendar, base: Partitions, rows: seq<Record>, a: Record, b: Record, name: string) {
    && Present(base, rows, a) && Present(base, rows, b) && a.tradeDate != b.tradeDate
    && Names(cal, a.tradeDate, name) && Names(cal, b.tradeDate, name)
  }

  /** A timestamp that can be read, and a date that is supported. */
  ghost predicate Complete(cal: Calendar, r: Record) {
    r.availableAt != "" && cal.stamp(r.availableAt).Some? && exists name :: Names(cal, r.tradeDate, name)
  }

  lemma CompleteIsUsable(cal: Calendar, r: Record)
    ensures Usable(cal, r) <==> Complete(cal, r)
  {
    if Usable(cal, r) {
      PartitionMeans(cal, r.tradeDate, PartitionOf(cal, r.tradeDate).value);
    }
  }

  /** The keys of the table after a build are those of the rows that are stored or new. */
  lemma {:induction false} OverlayKeys(t: Table, rows: seq<Record>, k: Key)
    ensures k in Overlay(t, rows) <==> k in t || exists i :: 0 <= i < |rows| && KeyOf(rows[i]) == k
  {
    hide KeyOf;
    if rows != [] {
      var n := |rows| - 1;
      OverlayKeys(t, rows[..n], k);
      assert forall i :: 0 <= i < n ==> rows[..n][i] == rows[i];
    }
  }

  lemma DateOfKey(cal: Calendar, base: Partitions, t: Table, rows: seq<Record>, k: Key) returns (r: Record)
    requires Holds(cal, base, t) && k in Overlay(t, rows)
    ensures Present(base, rows, r) && r.tradeDate == k.date
  {
    OverlayKeys(t, rows, k);
    if k in t {
      r := t[k];
      StoredStands(cal, base, t, r);
    } else {
      var i :| 0 <= i < |rows| && KeyOf(rows[i]) == k;
      r := rows[i];
    }
  }

  lemma KeyOfPresent(cal: Calendar, base: Partitions, t: Table, rows: seq<Record>, r: Record)
    requires Holds(cal, base, t) && Present(base, rows, r)
    ensures KeyOf(r) in Overlay(t, rows) && KeyOf(r).date == r.tradeDate
  {
    OverlayKeys(t, rows, KeyOf(r));
    if Stored(base, r) {
      StoredStands(cal, base, t, r);
    } else {
      var i :| 0 <= i < |rows| && rows[i] == r;
    }
  }

  /**
   * A build is accepted exactly when every new row has a readable timestamp and a supported date, and no two rows,
   * stored or new, spell one date in two ways.
   */
  lemma AcceptedExactly(cal: Calendar, base: Partitions, t: Table, rows: seq<Record>)
    requires Holds(cal, base, t)
    ensures Accepts(cal, t, rows) <==>
            && (forall i :: 0 <= i < |rows| ==> Complete(cal, rows[i]))
            && !exists a, b, name :: TwoSpellings(cal, base, rows, a, b, name)
  {
    hide Holds, Usable, Complete, KeyOf, PartitionOf, Names, Overlay, Present;
    forall i | 0 <= i < |rows|
      ensures Usable(cal, rows[i]) <==> Complete(cal, rows[i])
    {
      CompleteIsUsable(cal, rows[i]);
    }
    if forall i :: 0 <= i < |rows| ==> Usable(cal, rows[i]) {
      OneSpellingExactly(cal, base, t, rows);
    }
  }

  lemma OneSpellingExactly(cal: Calendar, base: Partitions, t: Table, rows: seq<Record>)
    requires Holds(cal, base, t) && forall i :: 0 <= i < |rows| ==> Usable(cal, rows[i])
    ensures OneSpelling(cal, Overlay(t, rows)) <==> !exists a, b, name :: TwoSpellings(cal, base, rows, a, b, name)
  {
    HeldIsDated(cal, base, t);
    HeldIsKeyed(cal, base, t);
    OverlayShape(cal, t, rows);
    hide Holds, Usable, KeyOf, PartitionOf, Names, Overlay, Present;
    var u := Overlay(t, rows);
    if a, b, name :| TwoSpellings(cal, base, rows, a, b, name) {
      KeyOfPresent(cal, base, t, rows, a);
      KeyOfPresent(cal, base, t, rows, b);
      PartitionMeans(cal, a.tradeDate, name);
      PartitionMeans(cal, b.tradeDate, name);
    }
    if k, l :| k in u && l in u && PartitionOf(cal, k.date) == PartitionOf(cal, l.date) && k.date != l.date {
      var a := DateOfKey(cal, base, t, rows, k);
      var b := DateOfKey(cal, base, t, rows, l);
      var name := PartitionOf(cal, k.date).value;
      PartitionMeans(cal, k.date, name);
      PartitionMeans(cal, l.date, name);
      assert TwoSpellings(cal, base, rows, a, b, name);
    }
  }
}
