/** The date-partitioned store, over an abstract folder map (`data_lake.py`). */
module DataLake {
  import opened Base
  import opened Sorting

  /** A daily price; `values` stands for its numeric columns. */
  datatype Record = Record(
    market: string, symbol: string, tradeDate: string, availableAt: string, source: string, values: seq<Option<real>>)

  /** Date and timestamp parsing as the library provides it: day 0 is 1900-01-01, `iso` spells a day canonically. */
  datatype Calendar = Calendar(day: string -> Option<int>, iso: int -> string, stamp: string -> Option<int>)

  datatype StoreError = InvalidDate | DuplicatePartition | MisplacedRow

  /** `_validate_trade_date`: the canonical spelling of a supported date. */
  function PartitionOf(cal: Calendar, text: string): (r: Option<string>) {
    match cal.day(text)
    case Some(d) => if d < 0 then None else Some(cal.iso(d))
    case None => None
  }

  /** A dataset's partitions by canonical date. */
  type Partitions = map<string, seq<Record>>

  predicate Placed(cal: Calendar, rows: seq<Record>, name: string) {
    forall i :: 0 <= i < |rows| ==> PartitionOf(cal, rows[i].tradeDate) == Some(name)
  }

  function WriteKey(r: Record): (result: Key) {
    Key(r.market, r.symbol, r.tradeDate)
  }

  predicate WriteLe(a: Record, b: Record) {
    KeyLe(WriteKey(a), WriteKey(b))
  }

  function ReadKey(r: Record): (result: Key) {
    Key(Upper(r.market), r.symbol, r.tradeDate)
  }

  predicate ReadLe(a: Record, b: Record) {
    KeyLe(ReadKey(a), ReadKey(b))
  }

  /** The rows of the listed partitions, one after the other. */
  function Gathered(parts: Partitions, names: seq<string>): (r: seq<Record>) {
    if names == [] then []
    else Gathered(parts, names[..|names| - 1]) + GetOr(parts, names[|names| - 1], [])
  }

  predicate AllPlaced(cal: Calendar, parts: Partitions) {
    forall name :: name in parts ==> Placed(cal, parts[name], name)
  }

  /** The drive lists every partition folder once, in whatever order. */
  ghost predicate Lists(names: seq<string>, parts: Partitions) {
    && (forall i, j :: 0 <= i < j < |names| ==> names[i] != names[j])
    && (forall name :: name in names <==> name in parts)
  }

  predicate IsWanted(cal: Calendar, wanted: seq<string>, name: string) {
    exists i :: 0 <= i < |wanted| && PartitionOf(cal, wanted[i]) == Some(name)
  }

  /** The folders that are read: those of the wanted dates, or all of them when none is named. */
  function Chosen(cal: Calendar, listing: seq<string>, wanted: seq<string>): (names: seq<string>) {
    if wanted == [] then listing else Filter(listing, name => IsWanted(cal, wanted, name))
  }

  lemma ChosenAmong(cal: Calendar, listing: seq<string>, wanted: seq<string>)
    ensures forall name :: name in Chosen(cal, listing, wanted) <==>
                           name in listing && (wanted == [] || IsWanted(cal, wanted, name))
  {
    FilterElements(listing, name => IsWanted(cal, wanted, name));
  }

  lemma NothingListed(cal: Calendar, listing: seq<string>, wanted: seq<string>)
    requires Lists(listing, map[])
    ensures Chosen(cal, listing, wanted) == [] && Sort(Gathered(map[], []), ReadLe) == []
  {
    var first := if listing == [] then "" else listing[0];
    assert listing != [] ==> first in listing;
  }

  /** The uploads of the named partitions in turn; a misplaced row stops them, and what was uploaded stays. */
  function Uploaded(cal: Calendar, base: Partitions, written: Partitions, names: seq<string>): (r: (Partitions, bool)) {
    if names == [] then (base, true)
    else
      var (before, ok) := Uploaded(cal, base, written, names[..|names| - 1]);
      var name := names[|names| - 1];
      if ok && Placed(cal, GetOr(written, name, []), name)
      then (before[name := Sort(GetOr(written, name, []), WriteLe)], true)
      else (before, false)
  }

  lemma {:induction false} UploadedShape(cal: Calendar, base: Partitions, written: Partitions, names: seq<string>)
    requires forall name :: name in names ==> Placed(cal, GetOr(written, name, []), name)
    ensures var (after, ok) := Uploaded(cal, base, written, names);
            && ok
            && (forall name :: name in after <==> name in base || name in names)
            && (forall name :: name in after ==>
                  after[name] == if name in names then Sort(GetOr(written, name, []), WriteLe) else base[name])
  {
    if names != [] {
      var before := names[..|names| - 1];
      assert names == before + [names[|names| - 1]];
      UploadedShape(cal, base, written, before);
    }
  }

  /** By market, symbol and trade date as they are spelled. */
  predicate InWriteOrder(a: Record, b: Record) {
    if a.market != b.market then StringLe(a.market, b.market)
    else if a.symbol != b.symbol then StringLe(a.symbol, b.symbol)
    else StringLe(a.tradeDate, b.tradeDate)
  }

  /** Each uploaded partition has the rows written to it, in that order. */
  lemma UploadedInOrder(cal: Calendar, base: Partitions, written: Partitions, names: seq<string>)
    requires forall name :: name in names ==> Placed(cal, GetOr(written, name, []), name)
    ensures var after := Uploaded(cal, base, written, names).0;
            forall name :: name in names ==>
              && name in after && multiset(after[name]) == multiset(GetOr(written, name, []))
              && forall i, j :: 0 <= i < j < |after[name]| ==> InWriteOrder(after[name][i], after[name][j])
  {
    hide Uploaded, Placed, Sort;
    UploadedShape(cal, base, written, names);
    ByKeyIsPreorder(WriteLe, WriteKey);
    forall name | name in names
      ensures var part := Uploaded(cal, base, written, names).0[name];
              && multiset(part) == multiset(GetOr(written, name, []))
              && forall i, j :: 0 <= i < j < |part| ==> InWriteOrder(part[i], part[j])
    {
      SortElements(GetOr(written, name, []), WriteLe);
      SortSorts(GetOr(written, name, []), WriteLe);
    }
  }

  /** The partitions under their canonical dates. */
  ghost predicate Normalized(cal: Calendar, partitions: Partitions, named: Partitions) {
    && (forall k :: k in partitions ==> PartitionOf(cal, k).Some?)
    && (forall k :: k in partitions ==>
          PartitionOf(cal, k).value in named && named[PartitionOf(cal, k).value] == partitions[k])
    && (forall name :: name in named ==> exists k :: k in partitions && PartitionOf(cal, k) == Some(name))
  }

  /** Every key is a supported date, and no two keys are the same date. */
  predicate DistinctDates(cal: Calendar, partitions: Partitions) {
    && (forall k :: k in partitions ==> PartitionOf(cal, k).Some?)
    && (forall k, l :: k in partitions && l in partitions && PartitionOf(cal, k) == PartitionOf(cal, l) ==> k == l)
  }

  /** The keys of a map in ascending order. */
  method SortedKeys(parts: Partitions) returns (names: seq<string>)
    ensures Lists(names, parts) && Sorted(names, StringLe)
  {
    names := [];
    var todo := parts.Keys;
    while todo != {}
      invariant forall i, j :: 0 <= i < j < |names| ==> names[i] != names[j]
      invariant forall name :: name in parts <==> name in todo || name in names
      invariant forall name :: name in todo ==> name !in names
      decreases todo
    {
      var name :| name in todo;
      todo := todo - {name};
      names := names + [name];
    }
    StringLeIsPreorder();
    SortSorts(names, StringLe);
    SortElements(names, StringLe);
    DistinctAfterSort(names);
    names := Sort(names, StringLe);
  }

  lemma StringLeIsPreorder()
    ensures TotalPreorder(StringLe)
  {
    forall a: string, b: string
      ensures StringLe(a, b) || StringLe(b, a)
    {
      StringLeTotal(a, b);
    }
    forall a: string, b: string, c: string | StringLe(a, b) && StringLe(b, c)
      ensures StringLe(a, c)
    {
      StringLeTransitive(a, b, c);
    }
  }

  lemma {:induction false} CountsAtMostOne<T>(s: seq<T>)
    requires forall i, j :: 0 <= i < j < |s| ==> s[i] != s[j]
    ensures forall x :: multiset(s)[x] <= 1
  {
    if s != [] {
      CountsAtMostOne(s[..|s| - 1]);
      assert s == s[..|s| - 1] + [s[|s| - 1]];
    }
  }

  lemma RepeatsCount<T>(s: seq<T>, i: nat, j: nat)
    requires i < j < |s| && s[i] == s[j]
    ensures multiset(s)[s[i]] >= 2
  {
    assert s == s[..j] + s[j..];
    assert s[..j][i] in multiset(s[..j]) && s[j..][0] in multiset(s[j..]);
  }

  lemma DistinctAfterSort(names: seq<string>)
    requires forall i, j :: 0 <= i < j < |names| ==> names[i] != names[j]
    ensures |Sort(names, StringLe)| == |names|
    ensures forall i, j :: 0 <= i < j < |names| ==> Sort(names, StringLe)[i] != Sort(names, StringLe)[j]
  {
    SortElements(names, StringLe);
    CountsAtMostOne(names);
    var sorted := Sort(names, StringLe);
    forall i, j | 0 <= i < j < |sorted|
      ensures sorted[i] != sorted[j]
    {
      if sorted[i] == sorted[j] {
        RepeatsCount(sorted, i, j);
      }
    }
  }

  datatype Manifest = Manifest(rowCount: nat, partitionKeys: seq<string>, partitionCounts: seq<nat>)

  function SumOf(counts: seq<nat>): (r: nat) {
    if counts == [] then 0 else SumOf(counts[..|counts| - 1]) + counts[|counts| - 1]
  }

  lemma NothingCounted()
    ensures SumOf([]) == 0
  {
  }

  lemma OneMoreCount(counts: seq<nat>, n: nat)
    ensures SumOf(counts + [n]) == SumOf(counts) + n
  {
    assert (counts + [n])[..|counts|] == counts;
  }

  lemma ListedIsKey(names: seq<string>, parts: Partitions)
    requires Lists(names, parts)
    ensures forall i :: 0 <= i < |names| ==> names[i] in parts
    ensures forall i, j :: 0 <= i < j < |names| ==> names[i] != names[j]
  {
  }

  class DriveStorage {
    const cal: Calendar
    var datasets: map<string, Partitions>

    constructor (cal: Calendar)
      ensures this.cal == cal && datasets == map[]
    {
      this.cal, datasets := cal, map[];
    }

    function Of(dataset: string): (r: Partitions)
      reads this
    {
      GetOr(datasets, dataset, map[])
    }

    /**
     * `read_partitioned_jsonl`, of the wanted dates or of all when none is named; `listing` is the order in which the
     * drive lists the folders. The dates are not looked at when there is no such dataset.
     */
    method ReadPartitioned(dataset: string, listing: seq<string>, wanted: seq<string>)
      returns (r: Result<seq<Record>, StoreError>)
      requires Lists(listing, Of(dataset))
      ensures r == Err(InvalidDate) <==>
              dataset in datasets && exists i :: 0 <= i < |wanted| && PartitionOf(cal, wanted[i]).None?
      ensures r == Err(MisplacedRow) ==> !AllPlaced(cal, Of(dataset))
      ensures r != Err(InvalidDate) ==>
                (r.Ok? <==> forall name :: name in Chosen(cal, listing, wanted) ==>
                                          Placed(cal, GetOr(Of(dataset), name, []), name))
      ensures r.Ok? ==> r.value == Sort(Gathered(Of(dataset), Chosen(cal, listing, wanted)), ReadLe)
    {
      hide Sort, Placed;
      ChosenAmong(cal, listing, wanted);
      if dataset !in datasets {
        NothingListed(cal, listing, wanted);
        return Ok([]);
      }
      if exists i :: 0 <= i < |wanted| && PartitionOf(cal, wanted[i]).None? {
        return Err(InvalidDate);
      }
      var names := Chosen(cal, listing, wanted);
      var rows, ok := Gather(Of(dataset), names);
      r := if ok then Ok(Sort(rows, ReadLe)) else Err(MisplacedRow);
    }

    /** The rows of the named partitions, unless one is misplaced. */
    method Gather(parts: Partitions, names: seq<string>) returns (rows: seq<Record>, ok: bool)
      requires forall name :: name in names ==> name in parts
      ensures ok <==> forall name :: name in names ==> Placed(cal, parts[name], name)
      ensures ok ==> rows == Gathered(parts, names)
    {
      rows, ok := [], true;
      for i := 0 to |names|
        invariant rows == Gathered(parts, names[..i])
        invariant forall k :: 0 <= k < i ==> Placed(cal, parts[names[k]], names[k])
      {
        assert names[..i + 1][..i] == names[..i];
        var part := parts[names[i]];
        ghost var before := rows;
        for k := 0 to |part|
          invariant rows == before + part[..k]
          invariant forall j :: 0 <= j < k ==> PartitionOf(cal, part[j].tradeDate) == Some(names[i])
        {
          if PartitionOf(cal, part[k].tradeDate) != Some(names[i]) {
            ok := false;
            return;
          }
          rows := rows + [part[k]];
        }
        assert part[..|part|] == part;
      }
      assert names[..|names|] == names;
    }

    /** Validate the partition keys; two keys for one date are refused. */
    method Normalize(partitions: Partitions) returns (r: Result<Partitions, StoreError>)
      ensures r.Ok? <==> DistinctDates(cal, partitions)
      ensures r.Ok? ==> Normalized(cal, partitions, r.value)
      ensures r.Err? ==> r.error in {InvalidDate, DuplicatePartition}
    {
      var normalized: Partitions := map[];
      var todo := partitions.Keys;
      ghost var done: set<string> := {};
      while todo != {}
        invariant todo !! done && todo + done == partitions.Keys
        invariant forall k :: k in done ==> PartitionOf(cal, k).Some? && PartitionOf(cal, k).value in normalized
                                            && normalized[PartitionOf(cal, k).value] == partitions[k]
        invariant forall name :: name in normalized ==> exists k :: k in done && PartitionOf(cal, k) == Some(name)
        invariant forall k, l :: k in done && l in done && PartitionOf(cal, k) == PartitionOf(cal, l) ==> k == l
        decreases todo
      {
        var key :| key in todo;
        todo := todo - {key};
        var name := PartitionOf(cal, key);
        if name.None? {
          return Err(InvalidDate);
        }
        if name.value in normalized {
          return Err(DuplicatePartition);
        }
        ghost var before, was := done, normalized;
        done := done + {key};
        normalized := normalized[name.value := partitions[key]];
        forall other | other in normalized
          ensures exists k :: k in done && PartitionOf(cal, k) == Some(other)
        {
          if other == name.value {
            assert key in done;
          } else {
            var k :| k in before && PartitionOf(cal, k) == Some(other);
            assert k in done;
          }
        }
      }
      assert done == partitions.Keys;
      r := Ok(normalized);
    }

    /**
     * `write_partitioned_jsonl`: nothing is written when a key is refused; a misplaced row stops the uploads where they
     * are; and the partition counts of the manifest sum to its row count.
     */
    method WritePartitioned(dataset: string, partitions: Partitions)
      returns (r: Result<Manifest, StoreError>, ghost named: Partitions, ghost names: seq<string>)
      modifies this
      ensures forall other :: other != dataset ==> Of(other) == old(Of(other))
      ensures r.Ok? || r.error == MisplacedRow <==> DistinctDates(cal, partitions)
      ensures !DistinctDates(cal, partitions) ==> datasets == old(datasets)
      ensures DistinctDates(cal, partitions) ==>
                && Normalized(cal, partitions, named) && Lists(names, named)
                && (Of(dataset), r.Ok?) == Uploaded(cal, old(Of(dataset)), named, names)
      ensures r.Ok? ==>
                && r.value.partitionKeys == names && Sorted(names, StringLe)
                && |r.value.partitionCounts| == |names|
                && (forall i :: 0 <= i < |names| ==> r.value.partitionCounts[i] == |GetOr(Of(dataset), names[i], [])|)
                && r.value.rowCount == SumOf(r.value.partitionCounts)
    {
      named, names := map[], [];
      var normalized := Normalize(partitions);
      if normalized.Err? {
        return Err(normalized.error), named, names;
      }
      var keys := SortedKeys(normalized.value);
      named, names := normalized.value, keys;
      var base := Of(dataset);
      var current, counts, total, ok := Upload(base, normalized.value, keys);
      datasets := datasets[dataset := current];
      if !ok {
        return Err(MisplacedRow), named, names;
      }
      r := Ok(Manifest(total, keys, counts));
    }

    /** The uploads in turn, and the running counts. */
    method Upload(base: Partitions, normalized: Partitions, keys: seq<string>)
      returns (current: Partitions, counts: seq<nat>, total: nat, ok: bool)
      requires Lists(keys, normalized)
      ensures (current, ok) == Uploaded(cal, base, normalized, keys)
      ensures ok ==> |counts| == |keys| && total == SumOf(counts)
      ensures ok ==> forall i :: 0 <= i < |keys| ==> counts[i] == |GetOr(current, keys[i], [])|
    {
      hide Sort, Placed, SumOf, Lists;
      current, counts, total, ok := base, [], 0, true;
      NothingCounted();
      ListedIsKey(keys, normalized);
      for i := 0 to |keys|
        invariant ok && (current, true) == Uploaded(cal, base, normalized, keys[..i])
        invariant |counts| == i && total == SumOf(counts)
        invariant forall k :: 0 <= k < i ==> counts[k] == |GetOr(current, keys[k], [])|
      {
        assert keys[..i + 1][..i] == keys[..i];
        var rows := Sort(normalized[keys[i]], WriteLe);
        SamePlacement(cal, normalized[keys[i]], keys[i]);
        if !Placed(cal, rows, keys[i]) {
          UploadedStops(cal, base, normalized, keys, i + 1);
          ok := false;
          return;
        }
        current := current[keys[i] := rows];
        OneMoreCount(counts, |rows|);
        counts := counts + [|rows|];
        total := total + |rows|;
      }
      assert keys[..|keys|] == keys;
    }
  }

  lemma SamePlacement(cal: Calendar, rows: seq<Record>, name: string)
    ensures Placed(cal, Sort(rows, WriteLe), name) <==> Placed(cal, rows, name)
  {
    var sorted := Sort(rows, WriteLe);
    SortElements(rows, WriteLe);
    if Placed(cal, rows, name) {
      forall i | 0 <= i < |sorted|
        ensures PartitionOf(cal, sorted[i].tradeDate) == Some(name)
      {
        assert sorted[i] in rows;
      }
    }
    if Placed(cal, sorted, name) {
      forall i | 0 <= i < |rows|
        ensures PartitionOf(cal, rows[i].tradeDate) == Some(name)
      {
        assert rows[i] in sorted;
      }
    }
  }

  lemma {:induction false} UploadedStops(cal: Calendar, base: Partitions, written: Partitions, names: seq<string>,
                                         i: nat)
    requires i <= |names| && !Uploaded(cal, base, written, names[..i]).1
    ensures Uploaded(cal, base, written, names) == Uploaded(cal, base, written, names[..i])
    decreases |names| - i
  {
    if i < |names| {
      assert names[..i + 1][..i] == names[..i];
      UploadedStops(cal, base, written, names, i + 1);
    } else {
      assert names[..i] == names;
    }
  }
}
