/** The daily price dataset as a keyed map over the partitioned store (`market_dataset.py`). */
module MarketDataset {
  import opened Base
  import opened Sorting
  import opened DataLake

  /** `_key` */
  function KeyOf(r: Record): (result: Key) {
    Key(Upper(Strip(r.market)), Strip(r.symbol), r.tradeDate)
  }

  predicate KeyedLe(a: Record, b: Record) {
    KeyLe(KeyOf(a), KeyOf(b))
  }

  /** A dataset seen as a map from keys to rows. */
  type Table = map<Key, Record>

  /** Every entry stands under its own key. */
  predicate Keyed(t: Table) {
    forall k :: k in t ==> KeyOf(t[k]) == k
  }

  datatype BuildError = UnusableRow | Refused(error: StoreError)

  /** What `build` asks of each new row. */
  predicate Usable(cal: Calendar, r: Record) {
    && r.availableAt != "" && cal.stamp(r.availableAt).Some?
    && PartitionOf(cal, r.tradeDate).Some?
  }

  /** The table after writing the rows in turn: the last row of a key wins. */
  function Overlay(t: Table, rows: seq<Record>): (r: Table) {
    if rows == [] then t
    else Overlay(t, rows[..|rows| - 1])[KeyOf(rows[|rows| - 1]) := rows[|rows| - 1]]
  }

  /** Each trade date is spelled in one way only. */
  predicate OneSpelling(cal: Calendar, t: Table) {
    forall k, l :: k in t && l in t && PartitionOf(cal, k.date) == PartitionOf(cal, l.date) ==> k.date == l.date
  }

  /** What one build makes of a table; a refused build leaves it as it was. */
  predicate Accepts(cal: Calendar, t: Table, rows: seq<Record>) {
    (forall i :: 0 <= i < |rows| ==> Usable(cal, rows[i])) && OneSpelling(cal, Overlay(t, rows))
  }

  function AfterBuild(cal: Calendar, t: Table, rows: seq<Record>): (r: Table) {
    if Accepts(cal, t, rows) then Overlay(t, rows) else t
  }

  // ----- Partitions that hold a table

  /** The partitions hold exactly the rows of the table, each once, each in the partition of its date. */
  ghost predicate Holds(cal: Calendar, parts: Partitions, t: Table) {
    && Keyed(t) && AllPlaced(cal, parts)
    && (forall name, r :: name in parts && r in parts[name] ==> Stands(t, r))
    && (forall name :: name in parts ==> DistinctKeys(parts[name]))
    && (forall k :: k in t ==> HasRow(cal, parts, t[k]))
  }

  /** The row is the table's row for its key. */
  predicate Stands(t: Table, r: Record) {
    KeyOf(r) in t && t[KeyOf(r)] == r
  }

  predicate HasRow(cal: Calendar, parts: Partitions, r: Record) {
    && PartitionOf(cal, r.tradeDate).Some? && PartitionOf(cal, r.tradeDate).value in parts
    && r in parts[PartitionOf(cal, r.tradeDate).value]
  }

  /** A sequence that lists the rows of a table, each once. */
  ghost predicate Enumerates(rows: seq<Record>, t: Table) {
    && (forall r :: r in rows ==> Stands(t, r))
    && DistinctKeys(rows)
    && (forall k :: k in t ==> t[k] in rows)
  }

  predicate DistinctKeys(rows: seq<Record>) {
    forall i, j :: 0 <= i < j < |rows| ==> KeyOf(rows[i]) != KeyOf(rows[j])
  }

  /** The row belongs to one of the named partitions. */
  predicate Among(cal: Calendar, r: Record, names: seq<string>) {
    PartitionOf(cal, r.tradeDate).Some? && PartitionOf(cal, r.tradeDate).value in names
  }

  lemma {:induction false} GatheredRows(cal: Calendar, parts: Partitions, names: seq<string>, t: Table)
    requires Holds(cal, parts, t) && forall name :: name in names ==> name in parts
    ensures forall r :: r in Gathered(parts, names) ==> Stands(t, r) && Among(cal, r, names)
    ensures forall name, r :: name in names && r in parts[name] ==> r in Gathered(parts, names)
  {
    if names != [] {
      var before := names[..|names| - 1];
      var last := names[|names| - 1];
      assert names == before + [last];
      GatheredRows(cal, parts, before, t);
      forall r | r in parts[last]
        ensures Stands(t, r) && Among(cal, r, names)
      {
        var i :| 0 <= i < |parts[last]| && parts[last][i] == r;
        assert PartitionOf(cal, parts[last][i].tradeDate) == Some(last);
      }
    }
  }

  lemma {:induction false} GatheredDistinct(cal: Calendar, parts: Partitions, names: seq<string>, t: Table)
    requires Holds(cal, parts, t) && forall name :: name in names ==> name in parts
    requires forall i, j :: 0 <= i < j < |names| ==> names[i] != names[j]
    ensures DistinctKeys(Gathered(parts, names))
  {
    if names != [] {
      var before := names[..|names| - 1];
      var last := names[|names| - 1];
      assert forall i, j :: 0 <= i < j < |before| ==> before[i] != before[j];
      GatheredDistinct(cal, parts, before, t);
      GatheredRows(cal, parts, before, t);
      var earlier, rows := Gathered(parts, before), Gathered(parts, names);
      assert rows == earlier + parts[last];
      forall i, j | 0 <= i < j < |rows|
        ensures KeyOf(rows[i]) != KeyOf(rows[j])
      {
        if j < |earlier| {
          assert KeyOf(earlier[i]) != KeyOf(earlier[j]);
        } else if i < |earlier| {
          assert rows[i] in earlier;
          assert PartitionOf(cal, parts[last][j - |earlier|].tradeDate) == Some(last);
          assert last !in before;
          assert rows[i].tradeDate != rows[j].tradeDate;
          assert KeyOf(rows[i]) != KeyOf(rows[j]);
        } else {
          DistinctInPartition(cal, parts, t, last, i - |earlier|, j - |earlier|);
          assert KeyOf(rows[i]) != KeyOf(rows[j]);
        }
      }
    }
  }

  lemma DistinctInPartition(cal: Calendar, parts: Partitions, t: Table, name: string, i: nat, j: nat)
    requires Holds(cal, parts, t) && name in parts && i < j < |parts[name]|
    ensures KeyOf(parts[name][i]) != KeyOf(parts[name][j])
  {
  }

  /** Whatever the listing order, reading a dataset that holds a table gives the rows of the table. */
  lemma ReadEnumerates(cal: Calendar, parts: Partitions, listing: seq<string>, t: Table)
    requires Holds(cal, parts, t) && Lists(listing, parts)
    ensures Enumerates(Gathered(parts, listing), t)
    ensures Enumerates(Sort(Gathered(parts, listing), ReadLe), t)
  {
    GatheredRows(cal, parts, listing, t);
    GatheredDistinct(cal, parts, listing, t);
    assert Enumerates(Gathered(parts, listing), t);
    SortKeepsEnumeration(Gathered(parts, listing), ReadLe, t);
  }

  lemma SortKeepsEnumeration(rows: seq<Record>, le: (Record, Record) -> bool, t: Table)
    requires Enumerates(rows, t)
    ensures Enumerates(Sort(rows, le), t)
  {
    SortElements(rows, le);
    DistinctPermutation(rows, Sort(rows, le), t);
  }

  /** Overlaying an enumeration on nothing rebuilds the table. */
  lemma {:induction false} OverlayOfEnumeration(rows: seq<Record>, t: Table)
    requires Enumerates(rows, t) && Keyed(t)
    ensures Overlay(map[], rows) == t
  {
    OverlayOfRows(rows);
    var o := Overlay(map[], rows);
    forall k
      ensures k in o <==> k in t
    {
      if k in t {
        assert t[k] in rows;
      }
      if k in o {
        assert Stands(t, o[k]);
      }
    }
  }

  /** The keys of an overlay are the keys of its rows, each with one of the rows of that key. */
  lemma {:induction false} OverlayOfRows(rows: seq<Record>)
    ensures forall k :: k in Overlay(map[], rows) ==>
              Overlay(map[], rows)[k] in rows && KeyOf(Overlay(map[], rows)[k]) == k
    ensures forall r :: r in rows ==> KeyOf(r) in Overlay(map[], rows)
  {
    if rows != [] {
      OverlayOfRows(rows[..|rows| - 1]);
      assert rows == rows[..|rows| - 1] + [rows[|rows| - 1]];
    }
  }

  lemma {:induction false} EnumerationSize(rows: seq<Record>, t: Table)
    requires Enumerates(rows, t) && Keyed(t)
    ensures |rows| == |t|
  {
    OverlayOfEnumeration(rows, t);
    OverlaySize(rows);
  }

  lemma {:induction false} OverlaySize(rows: seq<Record>)
    requires DistinctKeys(rows)
    ensures |Overlay(map[], rows)| == |rows|
  {
    if rows != [] {
      var before, last := rows[..|rows| - 1], rows[|rows| - 1];
      OverlaySize(before);
      OverlayOfRows(before);
      var o := Overlay(map[], before);
      LastIsNew(rows);
      assert KeyOf(last) !in o;
      assert o[KeyOf(last) := last].Keys == o.Keys + {KeyOf(last)};
    }
  }

  lemma LastIsNew(rows: seq<Record>)
    requires DistinctKeys(rows) && rows != []
    ensures DistinctKeys(rows[..|rows| - 1])
    ensures forall r :: r in rows[..|rows| - 1] ==> KeyOf(r) != KeyOf(rows[|rows| - 1])
  {
    var before := rows[..|rows| - 1];
    forall r | r in before
      ensures KeyOf(r) != KeyOf(rows[|rows| - 1])
    {
      var i :| 0 <= i < |before| && before[i] == r;
      assert KeyOf(rows[i]) != KeyOf(rows[|rows| - 1]);
    }
  }

  // ----- Building

  /** The rows of one trade date as spelled, in order. */
  function RowsOn(rows: seq<Record>, date: string): (r: seq<Record>) {
    if rows == [] then []
    else RowsOn(rows[..|rows| - 1], date) + (if rows[|rows| - 1].tradeDate == date then [rows[|rows| - 1]] else [])
  }

  lemma {:induction false} RowsOnElements(rows: seq<Record>, date: string)
    ensures forall r :: r in RowsOn(rows, date) <==> r in rows && r.tradeDate == date
    ensures DistinctKeys(rows) ==> DistinctKeys(RowsOn(rows, date))
  {
    if rows != [] {
      var before, last := rows[..|rows| - 1], rows[|rows| - 1];
      RowsOnElements(before, date);
      assert rows == before + [last];
      if DistinctKeys(rows) {
        LastIsNew(rows);
      }
    }
  }

  /** One partition per spelled trade date. */
  ghost predicate ByDate(partitions: Partitions, rows: seq<Record>) {
    && (forall d :: d in partitions <==> exists r :: r in rows && r.tradeDate == d)
    && (forall d :: d in partitions ==> partitions[d] == RowsOn(rows, d))
  }

  method GroupByDate(rows: seq<Record>) returns (partitions: Partitions)
    ensures ByDate(partitions, rows)
  {
    partitions := map[];
    for i := 0 to |rows|
      invariant forall d :: GetOr(partitions, d, []) == RowsOn(rows[..i], d)
      invariant forall d :: d in partitions <==> exists k :: 0 <= k < i && rows[k].tradeDate == d
    {
      assert rows[..i + 1][..i] == rows[..i];
      var d := rows[i].tradeDate;
      partitions := partitions[d := GetOr(partitions, d, []) + [rows[i]]];
    }
    assert rows[..|rows|] == rows;
    forall d
      ensures d in partitions <==> exists r :: r in rows && r.tradeDate == d
    {
      if d in partitions {
        var k :| 0 <= k < |rows| && rows[k].tradeDate == d;
        assert rows[k] in rows;
      }
      if r :| r in rows && r.tradeDate == d {
        var k :| 0 <= k < |rows| && rows[k] == r;
        assert rows[k].tradeDate == d;
      }
    }
  }

  /** The values of a table in some order. */
  method Values(t: Table) returns (rows: seq<Record>)
    requires Keyed(t)
    ensures Enumerates(rows, t)
  {
    rows := [];
    var todo := t.Keys;
    while todo != {}
      invariant todo <= t.Keys
      invariant forall r :: r in rows ==> Stands(t, r) && KeyOf(r) !in todo
      invariant DistinctKeys(rows)
      invariant forall k :: k in t ==> k in todo || t[k] in rows
      decreases todo
    {
      var key :| key in todo;
      todo := todo - {key};
      ghost var before := rows;
      rows := rows + [t[key]];
      forall i, j | 0 <= i < j < |rows|
        ensures KeyOf(rows[i]) != KeyOf(rows[j])
      {
        assert i < |before| && rows[i] in before;
      }
    }
  }

  /** Every date in the table is a supported one. */
  predicate Dated(cal: Calendar, t: Table) {
    forall k :: k in t ==> PartitionOf(cal, k.date).Some?
  }

  lemma {:induction false} OverlayShape(cal: Calendar, t: Table, rows: seq<Record>)
    requires Keyed(t)
    ensures Keyed(Overlay(t, rows))
    ensures t.Keys <= Overlay(t, rows).Keys
    ensures Dated(cal, t) && (forall i :: 0 <= i < |rows| ==> Usable(cal, rows[i])) ==> Dated(cal, Overlay(t, rows))
  {
    if rows != [] {
      OverlayShape(cal, t, rows[..|rows| - 1]);
    }
  }

  /** The dates of the grouped rows are distinct exactly when the table spells each date one way. */
  lemma GroupedDates(cal: Calendar, rows: seq<Record>, u: Table, partitions: Partitions)
    requires Enumerates(rows, u) && Keyed(u) && Dated(cal, u) && ByDate(partitions, rows)
    ensures DistinctDates(cal, partitions) <==> OneSpelling(cal, u)
  {
    forall d
      ensures d in partitions <==> exists k :: k in u && k.date == d
    {
      if d in partitions {
        var r :| r in rows && r.tradeDate == d;
        assert Stands(u, r) && KeyOf(r).date == d;
      }
      if k :| k in u && k.date == d {
        assert u[k] in rows && u[k].tradeDate == d;
      }
    }
  }

  /** Every named partition is made of rows of the new table. */
  lemma NamedPartitions(
    cal: Calendar, rows: seq<Record>, u: Table, partitions: Partitions, named: Partitions, name: string)
    requires Enumerates(rows, u) && ByDate(partitions, rows) && Normalized(cal, partitions, named) && name in named
    ensures GoodPartition(cal, named[name], name, u) && GoodPartition(cal, Sort(named[name], WriteLe), name, u)
  {
    var d :| d in partitions && PartitionOf(cal, d) == Some(name);
    RowsOnElements(rows, d);
    var part := partitions[d];
    forall i | 0 <= i < |part|
      ensures PartitionOf(cal, part[i].tradeDate) == Some(name)
    {
      assert part[i] in part;
    }
    SortedPartition(cal, part, name, u);
  }

  /** Every row of the new table is in the named partition of its date. */
  lemma NamedRow(
    cal: Calendar, rows: seq<Record>, u: Table, partitions: Partitions, named: Partitions, k: Key)
    requires Enumerates(rows, u) && ByDate(partitions, rows) && Normalized(cal, partitions, named) && k in u
    ensures var name := PartitionOf(cal, u[k].tradeDate);
            name.Some? && name.value in named && u[k] in named[name.value] && u[k] in Sort(named[name.value], WriteLe)
  {
    var r := u[k];
    assert r in rows;
    assert r.tradeDate in partitions;
    RowsOnElements(rows, r.tradeDate);
    SortElements(partitions[r.tradeDate], WriteLe);
  }

  /** After the uploads the partitions hold the new table. */
  lemma UploadedHolds(
    cal: Calendar, base: Partitions, t: Table, rows: seq<Record>, u: Table, partitions: Partitions, named: Partitions,
    names: seq<string>)
    requires Holds(cal, base, t) && Enumerates(rows, u) && Keyed(u) && t.Keys <= u.Keys
    requires ByDate(partitions, rows) && Normalized(cal, partitions, named) && Lists(names, named)
    ensures Uploaded(cal, base, named, names).1
    ensures Holds(cal, Uploaded(cal, base, named, names).0, u)
    ensures Enumerates(Gathered(Uploaded(cal, base, named, names).0, names), u)
  {
    hide Uploaded, ByDate, Normalized, Gathered, Enumerates;
    forall name | name in names
      ensures Placed(cal, GetOr(named, name, []), name)
    {
      NamedPartitions(cal, rows, u, partitions, named, name);
    }
    UploadedShape(cal, base, named, names);
    var after := Uploaded(cal, base, named, names).0;
    forall name | name in after
      ensures GoodPartition(cal, after[name], name, u)
    {
      if name in names {
        NamedPartitions(cal, rows, u, partitions, named, name);
      } else {
        EmptyUnlessNamed(cal, base, t, rows, u, partitions, named, name);
      }
    }
    forall k | k in u
      ensures HasRow(cal, after, u[k]) && PartitionOf(cal, u[k].tradeDate).value in names
    {
      NamedRow(cal, rows, u, partitions, named, k);
    }
    HoldsFromPartitions(cal, after, u);
    GatheredNames(cal, after, names, u);
  }

  lemma GatheredNames(cal: Calendar, parts: Partitions, names: seq<string>, u: Table)
    requires Holds(cal, parts, u)
    requires forall i, j :: 0 <= i < j < |names| ==> names[i] != names[j]
    requires forall name :: name in names ==> name in parts
    requires forall k :: k in u ==> HasRow(cal, parts, u[k]) && PartitionOf(cal, u[k].tradeDate).value in names
    ensures Enumerates(Gathered(parts, names), u)
  {
    GatheredRows(cal, parts, names, u);
    GatheredDistinct(cal, parts, names, u);
  }

  /** A partition whose rows are rows of the table, each once, of the right date. */
  ghost predicate GoodPartition(cal: Calendar, part: seq<Record>, name: string, u: Table) {
    Placed(cal, part, name) && DistinctKeys(part) && forall r :: r in part ==> Stands(u, r)
  }

  lemma HoldsFromPartitions(cal: Calendar, parts: Partitions, u: Table)
    requires Keyed(u) && (forall name :: name in parts ==> GoodPartition(cal, parts[name], name, u))
    requires forall k :: k in u ==> HasRow(cal, parts, u[k])
    ensures Holds(cal, parts, u)
  {
  }

  lemma SortedPartition(cal: Calendar, part: seq<Record>, name: string, u: Table)
    requires GoodPartition(cal, part, name, u)
    ensures GoodPartition(cal, Sort(part, WriteLe), name, u)
  {
    SamePlacement(cal, part, name);
    SortElements(part, WriteLe);
    DistinctPermutation(part, Sort(part, WriteLe), u);
  }

  lemma DistinctPermutation(a: seq<Record>, b: seq<Record>, u: Table)
    requires DistinctKeys(a) && multiset(a) == multiset(b) && forall r :: r in a ==> Stands(u, r)
    ensures DistinctKeys(b)
  {
    CountsAtMostOne(a);
    forall i, j | 0 <= i < j < |b|
      ensures KeyOf(b[i]) != KeyOf(b[j])
    {
      assert b[i] in multiset(b) && b[j] in multiset(b);
      assert b[i] in a && b[j] in a;
      if KeyOf(b[i]) == KeyOf(b[j]) {
        RepeatsCount(b, i, j);
      }
    }
  }

  /** An occupied partition is reached by the new rows again: no key is ever erased. */
  lemma OccupiedIsNamed(
    cal: Calendar, base: Partitions, t: Table, rows: seq<Record>, u: Table, partitions: Partitions, named: Partitions,
    name: string, r: Record)
    requires Holds(cal, base, t) && Enumerates(rows, u) && Keyed(u) && t.Keys <= u.Keys
    requires ByDate(partitions, rows) && Normalized(cal, partitions, named)
    requires name in base && r in base[name]
    ensures name in named
  {
    assert Stands(t, r);
    var i :| 0 <= i < |base[name]| && base[name][i] == r;
    assert PartitionOf(cal, base[name][i].tradeDate) == Some(name);
    var now := u[KeyOf(r)];
    assert now in rows && now.tradeDate == r.tradeDate;
    assert now.tradeDate in partitions;
  }

  lemma EmptyUnlessNamed(
    cal: Calendar, base: Partitions, t: Table, rows: seq<Record>, u: Table, partitions: Partitions, named: Partitions,
    name: string)
    requires Holds(cal, base, t) && Enumerates(rows, u) && Keyed(u) && t.Keys <= u.Keys
    requires ByDate(partitions, rows) && Normalized(cal, partitions, named)
    requires name in base
    ensures base[name] == [] || name in named
  {
    if base[name] != [] {
      OccupiedIsNamed(cal, base, t, rows, u, partitions, named, name, base[name][0]);
    }
  }

  lemma HeldIsDated(cal: Calendar, parts: Partitions, t: Table)
    requires Holds(cal, parts, t)
    ensures Dated(cal, t)
  {
    forall k | k in t
      ensures PartitionOf(cal, k.date).Some?
    {
      assert HasRow(cal, parts, t[k]) && KeyOf(t[k]) == k;
    }
  }

  lemma {:induction false} GatheredSize(parts: Partitions, names: seq<string>, counts: seq<nat>)
    requires |counts| == |names| && forall i :: 0 <= i < |names| ==> counts[i] == |GetOr(parts, names[i], [])|
    ensures |Gathered(parts, names)| == SumOf(counts)
  {
    if names != [] {
      GatheredSize(parts, names[..|names| - 1], counts[..|counts| - 1]);
    }
  }

  class DailyDatasetBuilder {
    const storage: DriveStorage

    constructor (storage: DriveStorage)
      ensures this.storage == storage
    {
      this.storage := storage;
    }

    /**
     * `build`: read the dataset in whatever order the drive lists it, let the new rows win, and rewrite it. When the
     * dataset held a table, it then holds the table after the build: exactly the old rows overlaid by the new ones if
     * the build is accepted, and exactly the old table if it is refused. The manifest counts the rows.
     */
    method Build(rows: seq<Record>, dataset: string, listing: seq<string>, ghost t: Table)
      returns (r: Result<Manifest, BuildError>)
      requires Holds(storage.cal, storage.Of(dataset), t) && Lists(listing, storage.Of(dataset))
      modifies storage
      ensures r.Ok? <==> Accepts(storage.cal, t, rows)
      ensures Holds(storage.cal, storage.Of(dataset), AfterBuild(storage.cal, t, rows))
      ensures r.Err? ==> storage.datasets == old(storage.datasets)
      ensures forall other :: other != dataset ==> storage.Of(other) == old(storage.Of(other))
      ensures r.Ok? ==>
                && r.value.rowCount == |Overlay(t, rows)| == SumOf(r.value.partitionCounts)
                && Sorted(r.value.partitionKeys, StringLe)
    {
      hide Holds, Enumerates, Gathered, Uploaded, Accepts, Overlay, ByDate, Normalized;
      ghost var base := storage.Of(dataset);
      HeldIsPlaced(storage.cal, base, t);
      HeldIsKeyed(storage.cal, base, t);
      var existing := storage.ReadPartitioned(dataset, listing, []);
      ReadEnumerates(storage.cal, base, listing, t);
      var unique := ReadBack(existing.value, t);
      var ok;
      unique, ok := Merge(storage.cal, unique, rows);
      if !ok {
        NotAccepted(storage.cal, t, rows);
        return Err(UnusableRow);
      }
      HeldIsDated(storage.cal, base, t);
      OverlayShape(storage.cal, t, rows);
      var ordered := Values(unique);
      SortKeepsEnumeration(ordered, KeyedLe, unique);
      ordered := Sort(ordered, KeyedLe);
      var partitions := GroupByDate(ordered);
      GroupedDates(storage.cal, ordered, unique, partitions);
      AcceptedWhen(storage.cal, t, rows);
      var written;
      ghost var named, names;
      written, named, names := storage.WritePartitioned(dataset, partitions);
      if DistinctDates(storage.cal, partitions) {
        UploadedHolds(storage.cal, base, t, ordered, unique, partitions, named, names);
        EnumerationSize(Gathered(storage.Of(dataset), names), unique);
        if written.Ok? {
          GatheredSize(storage.Of(dataset), names, written.value.partitionCounts);
        }
      }
      r := if written.Ok? then Ok(written.value) else Err(Refused(written.error));
    }
  }

  lemma HeldIsPlaced(cal: Calendar, parts: Partitions, t: Table)
    requires Holds(cal, parts, t)
    ensures AllPlaced(cal, parts)
  {
  }

  lemma HeldIsKeyed(cal: Calendar, parts: Partitions, t: Table)
    requires Holds(cal, parts, t)
    ensures Keyed(t)
  {
  }

  /** Keying the rows read back gives the table. */
  method ReadBack(rows: seq<Record>, ghost t: Table) returns (unique: Table)
    requires Enumerates(rows, t) && Keyed(t)
    ensures unique == t
  {
    unique := map[];
    for i := 0 to |rows|
      invariant unique == Overlay(map[], rows[..i])
    {
      assert rows[..i + 1][..i] == rows[..i];
      unique := unique[KeyOf(rows[i]) := rows[i]];
    }
    assert rows[..|rows|] == rows;
    OverlayOfEnumeration(rows, t);
  }

  /** Let the new rows win, one by one, unless one of them is unusable. */
  method Merge(cal: Calendar, t: Table, rows: seq<Record>) returns (unique: Table, ok: bool)
    ensures ok <==> forall i :: 0 <= i < |rows| ==> Usable(cal, rows[i])
    ensures ok ==> unique == Overlay(t, rows)
  {
    unique, ok := t, true;
    for i := 0 to |rows|
      invariant unique == Overlay(t, rows[..i])
      invariant forall k :: 0 <= k < i ==> Usable(cal, rows[k])
    {
      if !Usable(cal, rows[i]) {
        ok := false;
        return;
      }
      assert rows[..i + 1][..i] == rows[..i];
      unique := unique[KeyOf(rows[i]) := rows[i]];
    }
    assert rows[..|rows|] == rows;
  }

  lemma NotAccepted(cal: Calendar, t: Table, rows: seq<Record>)
    requires !(forall i :: 0 <= i < |rows| ==> Usable(cal, rows[i]))
    ensures !Accepts(cal, t, rows)
  {
  }

  lemma AcceptedWhen(cal: Calendar, t: Table, rows: seq<Record>)
    requires forall i :: 0 <= i < |rows| ==> Usable(cal, rows[i])
    ensures Accepts(cal, t, rows) <==> OneSpelling(cal, Overlay(t, rows))
  {
  }

  // ----- Any sequence of builds

  function AfterBuilds(cal: Calendar, t: Table, batches: seq<seq<Record>>): (r: Table) {
    if batches == [] then t
    else AfterBuild(cal, AfterBuilds(cal, t, batches[..|batches| - 1]), batches[|batches| - 1])
  }

  /** The rows of the accepted builds, in order. */
  function AcceptedRows(cal: Calendar, t: Table, batches: seq<seq<Record>>): (r: seq<Record>) {
    if batches == [] then []
    else
      var last := batches[|batches| - 1];
      AcceptedRows(cal, t, batches[..|batches| - 1])
      + (if Accepts(cal, AfterBuilds(cal, t, batches[..|batches| - 1]), last) then last else [])
  }

  lemma {:induction false} OverlayTwice(t: Table, a: seq<Record>, b: seq<Record>)
    ensures Overlay(Overlay(t, a), b) == Overlay(t, a + b)
  {
    if b == [] {
      assert a + b == a;
    } else {
      OverlayTwice(t, a, b[..|b| - 1]);
      assert (a + b)[..|a + b| - 1] == a + b[..|b| - 1];
    }
  }

  /** The drive lists the folders it has, in an order that may differ from one listing to the next. */
  ghost predicate ListsFolders(drive: (Partitions, nat) -> seq<string>) {
    forall parts, n :: Lists(drive(parts, n), parts)
  }

  lemma ListedAreKeys(listing: seq<string>, parts: Partitions)
    requires Lists(listing, parts)
    ensures forall name :: name in listing ==> name in parts
  {
  }

  /** A key that no row has keeps what it had. */
  lemma {:induction false} OtherKeysKept(t: Table, rows: seq<Record>, k: Key)
    requires forall i :: 0 <= i < |rows| ==> KeyOf(rows[i]) != k
    ensures k in Overlay(t, rows) <==> k in t
    ensures k in t ==> Overlay(t, rows)[k] == t[k]
  {
    if rows != [] {
      OtherKeysKept(t, rows[..|rows| - 1], k);
    }
  }

  /** A key that some row has ends up with the last such row. */
  lemma {:induction false} LastRowWins(t: Table, rows: seq<Record>, i: nat)
    requires i < |rows| && forall j :: i < j < |rows| ==> KeyOf(rows[j]) != KeyOf(rows[i])
    ensures KeyOf(rows[i]) in Overlay(t, rows) && Overlay(t, rows)[KeyOf(rows[i])] == rows[i]
  {
    if i < |rows| - 1 {
      var before := rows[..|rows| - 1];
      assert forall j :: i < j < |before| ==> before[j] == rows[j];
      LastRowWins(t, before, i);
    }
  }

  /**
   * After any sequence of builds, accepted or refused, the table is the initial one overlaid by the rows of the
   * accepted builds, so no key is ever erased.
   */
  lemma {:induction false} BuildsOverlay(cal: Calendar, t: Table, batches: seq<seq<Record>>)
    requires Keyed(t)
    ensures AfterBuilds(cal, t, batches) == Overlay(t, AcceptedRows(cal, t, batches))
    ensures t.Keys <= AfterBuilds(cal, t, batches).Keys && Keyed(AfterBuilds(cal, t, batches))
  {
    hide Accepts;
    if batches != [] {
      var before := AfterBuilds(cal, t, batches[..|batches| - 1]);
      var accepted := AcceptedRows(cal, t, batches[..|batches| - 1]);
      assert accepted + [] == accepted;
      BuildsOverlay(cal, t, batches[..|batches| - 1]);
      OverlayTwice(t, accepted, batches[|batches| - 1]);
      OverlayShape(cal, before, batches[|batches| - 1]);
    }
  }

  /** The date is spelled canonically. */
  predicate Canonical(cal: Calendar, date: string) {
    PartitionOf(cal, date) == Some(date)
  }

  /** With canonical dates, a build is accepted exactly when its rows are usable. */
  lemma CanonicalBuildsAccepted(cal: Calendar, t: Table, rows: seq<Record>)
    requires forall k :: k in t ==> Canonical(cal, k.date)
    requires forall i :: 0 <= i < |rows| ==> Canonical(cal, rows[i].tradeDate)
    ensures Accepts(cal, t, rows) <==> forall i :: 0 <= i < |rows| ==> Usable(cal, rows[i])
    ensures forall k :: k in Overlay(t, rows) ==> Canonical(cal, k.date)
  {
    OverlayCanonical(cal, t, rows);
  }

  lemma {:induction false} OverlayCanonical(cal: Calendar, t: Table, rows: seq<Record>)
    requires forall k :: k in t ==> Canonical(cal, k.date)
    requires forall i :: 0 <= i < |rows| ==> Canonical(cal, rows[i].tradeDate)
    ensures forall k :: k in Overlay(t, rows) ==> Canonical(cal, k.date)
  {
    if rows != [] {
      OverlayCanonical(cal, t, rows[..|rows| - 1]);
    }
  }

  /** Spelling one date in a second way refuses the build, and every later build that still does. */
  lemma SecondSpellingRefused(cal: Calendar, t: Table, rows: seq<Record>, k: Key, i: nat)
    requires Keyed(t) && k in t && i < |rows|
    requires PartitionOf(cal, rows[i].tradeDate) == PartitionOf(cal, k.date) && rows[i].tradeDate != k.date
    ensures !Accepts(cal, t, rows) && AfterBuild(cal, t, rows) == t
  {
    OverlayShape(cal, t, rows);
    OverlayHasRows(t, rows, i);
    assert KeyOf(rows[i]).date == rows[i].tradeDate;
  }

  lemma {:induction false} OverlayHasRows(t: Table, rows: seq<Record>, i: nat)
    requires i < |rows|
    ensures KeyOf(rows[i]) in Overlay(t, rows)
  {
    if i < |rows| - 1 {
      OverlayHasRows(t, rows[..|rows| - 1], i);
    }
  }

  // ----- Reading does not depend on the drive's listing order

  lemma {:induction false} StripOfUpper(a: string, b: string)
    requires Upper(a) == Upper(b)
    ensures Upper(Strip(a)) == Upper(Strip(b))
  {
    LeadingOfUpper(a, b);
    TrailingOfUpper(DropLeadingSpace(a), DropLeadingSpace(b));
  }

  lemma {:induction false} LeadingOfUpper(a: string, b: string)
    requires Upper(a) == Upper(b)
    ensures Upper(DropLeadingSpace(a)) == Upper(DropLeadingSpace(b))
  {
    assert |Upper(a)| == |a| && |Upper(b)| == |b|;
    if a != "" {
      assert UpperChar(a[0]) == Upper(a)[0] == Upper(b)[0] == UpperChar(b[0]);
      if IsSpace(a[0]) {
        assert Upper(a[1..]) == Upper(a)[1..] == Upper(b)[1..] == Upper(b[1..]);
        LeadingOfUpper(a[1..], b[1..]);
      }
    }
  }

  lemma {:induction false} TrailingOfUpper(a: string, b: string)
    requires Upper(a) == Upper(b)
    ensures Upper(DropTrailingSpace(a)) == Upper(DropTrailingSpace(b))
  {
    assert |Upper(a)| == |a| && |Upper(b)| == |b|;
    if a != "" {
      var n := |a| - 1;
      assert UpperChar(a[n]) == Upper(a)[n] == Upper(b)[n] == UpperChar(b[n]);
      if IsSpace(a[n]) {
        assert Upper(a[..n]) == Upper(a)[..n] == Upper(b)[..n] == Upper(b[..n]);
        TrailingOfUpper(a[..n], b[..n]);
      }
    }
  }

  lemma ReadLeIsPreorder()
    ensures TotalPreorder(ReadLe)
  {
    ByKeyIsPreorder(ReadLe, ReadKey);
  }

  /** Two drives listing the same folders in different orders give the same rows, sorted. */
  lemma ListingOrderDoesNotMatter(cal: Calendar, parts: Partitions, t: Table, one: seq<string>, other: seq<string>)
    requires Holds(cal, parts, t) && Lists(one, parts) && Lists(other, parts)
    ensures Sort(Gathered(parts, one), ReadLe) == Sort(Gathered(parts, other), ReadLe)
    ensures Sorted(Sort(Gathered(parts, one), ReadLe), ReadLe)
  {
    var a, b := Sort(Gathered(parts, one), ReadLe), Sort(Gathered(parts, other), ReadLe);
    ReadEnumerates(cal, parts, one, t);
    ReadEnumerates(cal, parts, other, t);
    ReadLeIsPreorder();
    SortSorts(Gathered(parts, one), ReadLe);
    SortSorts(Gathered(parts, other), ReadLe);
    SameElements(a, b, t);
    forall x, y | x in a && y in a && ReadLe(x, y) && ReadLe(y, x)
      ensures x == y
    {
      KeyLeAntisymmetric(ReadKey(x), ReadKey(y));
      StripOfUpper(x.market, y.market);
      assert Stands(t, x) && Stands(t, y);
    }
    SortedUnique(a, b, ReadLe);
  }

  /** Two enumerations of one table are permutations of each other. */
  lemma {:induction false} SameElements(a: seq<Record>, b: seq<Record>, t: Table)
    requires Enumerates(a, t) && Enumerates(b, t)
    ensures multiset(a) == multiset(b)
  {
    CountsAtMostOne(a);
    CountsAtMostOne(b);
    forall x
      ensures multiset(a)[x] == multiset(b)[x]
    {
      assert x in multiset(a) <==> x in a;
      assert x in multiset(b) <==> x in b;
      if x in a {
        assert Stands(t, x) && t[KeyOf(x)] in b;
      }
      if x in b {
        assert Stands(t, x) && t[KeyOf(x)] in a;
      }
    }
  }
}
