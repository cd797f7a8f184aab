/** Publishing recovered rows and reconciling them into the canonical dataset on the drive (`ingestion_retry.py`). */
module Recovery {
  import opened Base
  import opened Sorting
  import opened DataLake
  import opened MarketDataset
  import opened Reconciliation
  import opened Retry

  datatype RecoveryError = Timestamp | Build(error: BuildError) | NotCollected(reason: CollectError)

  predicate StampedTable(cal: Calendar, t: Table) {
    forall k :: k in t ==> cal.stamp(t[k].availableAt).Some?
  }

  predicate UsableTable(cal: Calendar, t: Table) {
    forall k :: k in t ==> Usable(cal, t[k])
  }

  /** A build of exactly the rows of `m` over a dataset holding `t` is accepted. */
  predicate AcceptsTable(cal: Calendar, t: Table, m: Table) {
    UsableTable(cal, m) && OneSpelling(cal, t + m)
  }

  /** Writing the rows of a table over another is map union. */
  lemma {:induction false} OverlayUnion(t: Table, rows: seq<Record>)
    ensures Overlay(t, rows) == t + Overlay(map[], rows)
  {
    hide KeyOf;
    if rows != [] {
      OverlayUnion(t, rows[..|rows| - 1]);
    }
  }

  lemma BuildOfTable(cal: Calendar, t: Table, m: Table, rows: seq<Record>)
    requires Enumerates(rows, m) && Keyed(m)
    ensures Overlay(t, rows) == t + m
    ensures Accepts(cal, t, rows) <==> AcceptsTable(cal, t, m)
  {
    hide Overlay, OneSpelling, Usable;
    OverlayUnion(t, rows);
    OverlayOfEnumeration(rows, m);
    if UsableTable(cal, m) {
      forall i | 0 <= i < |rows|
        ensures Usable(cal, rows[i])
      {
        assert rows[i] in rows;
        assert Stands(m, rows[i]);
      }
    }
    if forall i :: 0 <= i < |rows| ==> Usable(cal, rows[i]) {
      forall k | k in m
        ensures Usable(cal, m[k])
      {
        assert m[k] in rows;
      }
    }
  }

  /** The rows of a dataset that holds a table. */
  method ReadTable(storage: DriveStorage, dataset: string, listing: seq<string>, ghost t: Table)
    returns (rows: seq<Record>)
    requires Holds(storage.cal, storage.Of(dataset), t) && Lists(listing, storage.Of(dataset))
    ensures Enumerates(rows, t) && Keyed(t)
  {
    hide Holds, Enumerates, Gathered;
    HeldIsPlaced(storage.cal, storage.Of(dataset), t);
    HeldIsKeyed(storage.cal, storage.Of(dataset), t);
    var read := storage.ReadPartitioned(dataset, listing, []);
    ReadEnumerates(storage.cal, storage.Of(dataset), listing, t);
    rows := read.value;
  }

  lemma UnionTwice(t: Table, u: Table)
    ensures t + (u + t) == u + t
  {
  }

  // ----- Publishing recovered rows

  predicate Supersedes(cal: Calendar, t: Table, r: Record) {
    KeyOf(r) !in t || StampOf(cal, r) >= StampOf(cal, t[KeyOf(r)])
  }

  /** Each row replaces one of its key that is available no later. */
  function Newest(cal: Calendar, t: Table, rows: seq<Record>): (r: Table) {
    if rows == [] then t
    else
      var before := Newest(cal, t, rows[..|rows| - 1]);
      var last := rows[|rows| - 1];
      if Supersedes(cal, before, last) then before[KeyOf(last) := last] else before
  }

  /** Row `i` is available no earlier than any other of its key, and later than those that follow it. */
  predicate LastLatest(cal: Calendar, rows: seq<Record>, i: nat)
    requires i < |rows|
  {
    forall j :: 0 <= j < |rows| && j != i && KeyOf(rows[j]) == KeyOf(rows[i]) ==>
      if j < i then StampOf(cal, rows[j]) <= StampOf(cal, rows[i]) else StampOf(cal, rows[j]) < StampOf(cal, rows[i])
  }

  /** All rows of this key are available before `at`. */
  predicate AllOlder(cal: Calendar, rows: seq<Record>, k: Key, at: int) {
    forall j :: 0 <= j < |rows| && KeyOf(rows[j]) == k ==> StampOf(cal, rows[j]) < at
  }

  /** The entry of a key is the stored row if all new ones are older, and else the last of the latest new ones. */
  ghost predicate EntryIsLatest(cal: Calendar, t: Table, rows: seq<Record>, k: Key, r: Record) {
    || (k in t && r == t[k] && AllOlder(cal, rows, k, StampOf(cal, t[k])))
    || exists i :: 0 <= i < |rows| && rows[i] == r && KeyOf(r) == k && LastLatest(cal, rows, i) && Supersedes(cal, t, r)
  }

  /** Every entry of the combined table is the latest available one. */
  lemma {:induction false} NewestIsLatest(cal: Calendar, t: Table, rows: seq<Record>, k: Key)
    ensures k in Newest(cal, t, rows) <==> k in t || exists i :: 0 <= i < |rows| && KeyOf(rows[i]) == k
    ensures k in Newest(cal, t, rows) ==> EntryIsLatest(cal, t, rows, k, Newest(cal, t, rows)[k])
  {
    hide KeyOf, StampOf;
    if rows != [] {
      var before, last := rows[..|rows| - 1], rows[|rows| - 1];
      NewestIsLatest(cal, t, before, k);
      var n := |before|;
      assert rows[n] == last && forall j :: 0 <= j < n ==> rows[j] == before[j];
      if k in Newest(cal, t, before) {
        OneMoreIsLatest(cal, t, before, last, k, Newest(cal, t, before)[k]);
        assert rows == before + [last];
      } else if KeyOf(last) == k {
        assert LastLatest(cal, rows, n);
      }
    }
  }

  lemma OneMoreIsLatest(cal: Calendar, t: Table, before: seq<Record>, last: Record, k: Key, entry: Record)
    requires EntryIsLatest(cal, t, before, k, entry)
    ensures KeyOf(last) != k || StampOf(cal, last) < StampOf(cal, entry) ==>
              EntryIsLatest(cal, t, before + [last], k, entry)
    ensures KeyOf(last) == k && StampOf(cal, last) >= StampOf(cal, entry) ==>
              EntryIsLatest(cal, t, before + [last], k, last)
  {
    hide KeyOf, StampOf;
    var rows, n := before + [last], |before|;
    if KeyOf(last) == k && StampOf(cal, last) >= StampOf(cal, entry) {
      assert LastLatest(cal, rows, n);
    } else if i :|
      0 <= i < n && before[i] == entry && KeyOf(entry) == k && LastLatest(cal, before, i) && Supersedes(cal, t, entry)
    {
      assert rows[i] == entry && LastLatest(cal, rows, i);
    }
  }

  /** A key has only one latest entry. */
  lemma LatestIsUnique(cal: Calendar, t: Table, rows: seq<Record>, k: Key, a: Record, b: Record)
    requires EntryIsLatest(cal, t, rows, k, a) && EntryIsLatest(cal, t, rows, k, b)
    ensures a == b
  {
    hide KeyOf, StampOf;
  }

  lemma {:induction false} NewestKeyed(cal: Calendar, t: Table, rows: seq<Record>)
    requires Keyed(t)
    ensures Keyed(Newest(cal, t, rows)) && t.Keys <= Newest(cal, t, rows).Keys
  {
    hide KeyOf, Supersedes;
    if rows != [] {
      NewestKeyed(cal, t, rows[..|rows| - 1]);
    }
  }

  /** Publishing the same rows again changes nothing. */
  lemma PublishingTwice(cal: Calendar, t: Table, rows: seq<Record>)
    ensures Newest(cal, Newest(cal, t, rows), rows) == Newest(cal, t, rows)
  {
    hide KeyOf, StampOf, Newest;
    var once := Newest(cal, t, rows);
    var twice := Newest(cal, once, rows);
    forall k
      ensures k in twice <==> k in once
      ensures k in once ==> twice[k] == once[k]
    {
      NewestIsLatest(cal, t, rows, k);
      NewestIsLatest(cal, once, rows, k);
      if k in once {
        LatestStays(cal, t, rows, k, once);
        LatestIsUnique(cal, once, rows, k, twice[k], once[k]);
      }
    }
  }

  lemma LatestStays(cal: Calendar, t: Table, rows: seq<Record>, k: Key, once: Table)
    requires k in once && EntryIsLatest(cal, t, rows, k, once[k])
    ensures EntryIsLatest(cal, once, rows, k, once[k])
  {
    hide KeyOf, StampOf;
  }

  /** The rows can be compared, and the combined table can be built. */
  predicate CanPublish(cal: Calendar, t: Table, rows: seq<Record>) {
    StampedTable(cal, t) && Stamped(cal, rows) && AcceptsTable(cal, t, Newest(cal, t, rows))
  }

  /** The loop over the fetched rows; it raises when it has to compare a timestamp that does not parse. */
  method Combine(cal: Calendar, t: Table, rows: seq<Record>) returns (combined: Table, ok: bool)
    ensures ok && StampedTable(cal, combined) <==> StampedTable(cal, t) && Stamped(cal, rows)
    ensures ok ==> combined == Newest(cal, t, rows)
  {
    hide KeyOf, Stamped, StampedTable;
    combined, ok := t, true;
    NothingStamped(cal, rows);
    for i := 0 to |rows|
      invariant combined == Newest(cal, t, rows[..i])
      invariant StampedTable(cal, combined) <==> StampedTable(cal, t) && Stamped(cal, rows[..i])
    {
      assert rows[..i + 1][..i] == rows[..i];
      var row := rows[i];
      var key := KeyOf(row);
      StampedOneMore(cal, t, rows, i);
      StampedInsert(cal, combined, key, row);
      if key !in combined {
        assert Supersedes(cal, combined, row);
        combined := combined[key := row];
      } else if cal.stamp(row.availableAt).None? || cal.stamp(combined[key].availableAt).None? {
        assert !(StampedTable(cal, t) && Stamped(cal, rows));
        return combined, false;
      } else if cal.stamp(row.availableAt).value >= cal.stamp(combined[key].availableAt).value {
        combined := combined[key := row];
      }
    }
    assert rows[..|rows|] == rows;
  }

  lemma NothingStamped(cal: Calendar, rows: seq<Record>)
    ensures Stamped(cal, rows[..0])
  {
  }

  /** Writing an entry over one with a readable timestamp, or where there was none. */
  lemma StampedInsert(cal: Calendar, t: Table, k: Key, r: Record)
    ensures k !in t || cal.stamp(t[k].availableAt).Some? ==>
              (StampedTable(cal, t[k := r]) <==> StampedTable(cal, t) && cal.stamp(r.availableAt).Some?)
    ensures k in t && cal.stamp(t[k].availableAt).None? ==> !StampedTable(cal, t)
  {
    if StampedTable(cal, t[k := r]) && (k !in t || cal.stamp(t[k].availableAt).Some?) {
      assert t[k := r][k] == r;
      forall l | l in t
        ensures cal.stamp(t[l].availableAt).Some?
      {
        if l != k {
          assert l in t[k := r] && t[k := r][l] == t[l];
        }
      }
    }
  }

  lemma StampedOneMore(cal: Calendar, t: Table, rows: seq<Record>, i: nat)
    requires i < |rows|
    ensures Stamped(cal, rows[..i + 1]) <==> Stamped(cal, rows[..i]) && cal.stamp(rows[i].availableAt).Some?
    ensures Stamped(cal, rows) ==> Stamped(cal, rows[..i + 1])
  {
    assert forall j :: 0 <= j < i ==> rows[..i + 1][j] == rows[..i][j];
    assert rows[..i + 1][i] == rows[i];
    assert forall j :: 0 <= j < i + 1 ==> rows[..i + 1][j] == rows[j];
  }

  /**
   * The publication step of `run`: the recovery dataset then holds, for every key, the latest available of the stored
   * and the fetched rows, or is unchanged when the step raises.
   */
  method Publish(
    builder: DailyDatasetBuilder, rows: seq<Record>, dataset: string, listing: seq<string>, again: seq<string>,
    ghost t: Table)
    returns (r: Result<Option<Manifest>, RecoveryError>)
    requires Holds(builder.storage.cal, builder.storage.Of(dataset), t)
    requires Lists(listing, builder.storage.Of(dataset)) && Lists(again, builder.storage.Of(dataset))
    modifies builder.storage
    ensures r.Ok? <==> rows == [] || CanPublish(builder.storage.cal, t, rows)
    ensures r.Ok? ==> (r.value.None? <==> rows == [])
    ensures Holds(builder.storage.cal, builder.storage.Of(dataset),
                  if r.Ok? then Newest(builder.storage.cal, t, rows) else t)
    ensures r.Err? ==> builder.storage.datasets == old(builder.storage.datasets)
    ensures forall other :: other != dataset ==> builder.storage.Of(other) == old(builder.storage.Of(other))
  {
    hide Holds, Enumerates, Accepts, Overlay, Gathered, Usable, OneSpelling;
    var cal := builder.storage.cal;
    if rows == [] {
      return Ok(None);
    }
    var stored := ReadTable(builder.storage, dataset, listing, t);
    var existing := ReadBack(stored, t);
    var combined, ok := Combine(cal, existing, rows);
    if !ok {
      return Err(Timestamp);
    }
    NewestKeyed(cal, t, rows);
    assert t + combined == combined;
    var values := Values(combined);
    BuildOfTable(cal, t, combined, values);
    UsableIsStamped(cal, combined);
    var built := builder.Build(values, dataset, again, t);
    r := if built.Ok? then Ok(Some(built.value)) else Err(Build(built.error));
  }

  /** No item that is due has a range or a market the collector refuses. */
  predicate AllCollected(q: Queue, limit: int) {
    forall k :: k in q && Due(q[k], limit) ==> Collectable(q[k])
  }

  /**
   * The whole of `run`: a pass over the queue, and the publication of the rows it fetched. The queue that remains is
   * that of the pass; the recovery dataset then holds the latest row of every key, or is unchanged when either step
   * raises.
   */
  method RunAndPublish(
    service: IngestionRetryService, queue: FailureQueue, answers: FailureKey -> Answer, builder: DailyDatasetBuilder,
    dataset: string, listing: seq<string>, again: seq<string>, ghost t: Table)
    returns (r: Result<(PassReport, Option<Manifest>), RecoveryError>, remaining: FailureQueue,
             ghost fetched: seq<Record>)
    requires ValidQueue(queue.items)
    requires Holds(builder.storage.cal, builder.storage.Of(dataset), t)
    requires Lists(listing, builder.storage.Of(dataset)) && Lists(again, builder.storage.Of(dataset))
    modifies builder.storage
    ensures fresh(remaining)
    ensures r.Ok? <==>
            AllCollected(queue.items, service.limit) && (fetched == [] || CanPublish(builder.storage.cal, t, fetched))
    ensures AllCollected(queue.items, service.limit) ==>
              && RowsOfResolved(fetched, queue.items, service.limit, answers)
              && remaining.items == AfterPass(queue.items, service.limit, answers)
    ensures r.Ok? ==>
              && r.value.0.rows == fetched
              && r.value.0.resolved == |ResolvedKeys(queue.items, service.limit, answers)|
    ensures Holds(builder.storage.cal, builder.storage.Of(dataset),
                  if r.Ok? then Newest(builder.storage.cal, t, fetched) else t)
    ensures forall other :: other != dataset ==> builder.storage.Of(other) == old(builder.storage.Of(other))
  {
    hide Holds, CanPublish, AfterPass, ResolvedKeys, DueKeys, RowsOfResolved, Collectable, Due;
    fetched := [];
    var pass, fetches;
    pass, remaining, fetches := service.Run(queue, answers);
    if pass.Err? {
      return Err(NotCollected(pass.error)), remaining, fetched;
    }
    fetched := pass.value.rows;
    var published := Publish(builder, pass.value.rows, dataset, listing, again, t);
    r := if published.Ok? then Ok((pass.value, published.value)) else Err(published.error);
  }

  lemma UsableIsStamped(cal: Calendar, t: Table)
    ensures UsableTable(cal, t) ==> StampedTable(cal, t)
  {
  }

  // ----- Reconciling

  /** `reconcile`: the merged rows are built over whatever the dataset holds. */
  method Reconcile(
    builder: DailyDatasetBuilder, canonical: seq<Record>, recovery: seq<Record>, dataset: string, listing: seq<string>,
    ghost t: Table)
    returns (r: Result<(Report, Option<Manifest>), RecoveryError>)
    requires Holds(builder.storage.cal, builder.storage.Of(dataset), t) && Lists(listing, builder.storage.Of(dataset))
    modifies builder.storage
    ensures var merged := Reconciled(builder.storage.cal, canonical, recovery);
            && (r.Ok? <==> Stamped(builder.storage.cal, recovery)
                           && (merged == map[] || AcceptsTable(builder.storage.cal, t, merged)))
            && Holds(builder.storage.cal, builder.storage.Of(dataset), if r.Ok? then t + merged else t)
            && (r.Ok? ==> r.value.0.added == |merged| - |AddMissing(map[], canonical)|
                          && (r.value.1.None? <==> merged == map[]))
    ensures forall other :: other != dataset ==> builder.storage.Of(other) == old(builder.storage.Of(other))
  {
    hide Holds, Enumerates, Accepts, Overlay, Usable, OneSpelling, AddMissing;
    var cal := builder.storage.cal;
    ghost var reconciled := Reconciled(cal, canonical, recovery);
    var merged := Reconciliation.Merge(cal, canonical, recovery);
    if merged.Err? {
      return Err(Timestamp);
    }
    var (ordered, report) := merged.value;
    AddMissingShape(map[], canonical);
    AddMissingShape(AddMissing(map[], canonical), Sort(recovery, RecoveryLe(cal)));
    if ordered == [] {
      assert reconciled == map[];
      assert t + reconciled == t;
      return Ok((report, None));
    }
    BuildOfTable(cal, t, reconciled, ordered);
    var built := builder.Build(ordered, dataset, listing, t);
    r := if built.Ok? then Ok((report, Some(built.value))) else Err(Build(built.error));
  }

  /** Reconciling enumerations of two tables is map union in which the canonical rows win. */
  lemma ReconciledTables(cal: Calendar, canonical: seq<Record>, recovery: seq<Record>, t: Table, u: Table)
    requires Enumerates(canonical, t) && Keyed(t) && Enumerates(recovery, u) && Keyed(u)
    ensures AddMissing(map[], canonical) == t
    ensures Reconciled(cal, canonical, recovery) == u + t
  {
    hide KeyOf, AddMissing;
    AddEnumeration(canonical, t);
    var sorted := Sort(recovery, RecoveryLe(cal));
    SortKeepsEnumeration(recovery, RecoveryLe(cal), u);
    AddMissingShape(t, sorted);
    var m := AddMissing(t, sorted);
    forall k
      ensures k in m <==> k in u + t
      ensures k in m ==> m[k] == (u + t)[k]
    {
      if k in u {
        assert u[k] in sorted && KeyOf(u[k]) == k;
      }
      if k in m && k !in t {
        assert Stands(u, m[k]);
      }
    }
  }

  /**
   * `reconcile_from_drive`: the canonical dataset then holds its own rows and, for every key it lacked, the row of the
   * recovery dataset; no other dataset changes.
   */
  method ReconcileFromDrive(
    builder: DailyDatasetBuilder, dataset: string, recovery: string, listing: seq<string>, again: seq<string>,
    recovered: seq<string>, ghost t: Table, ghost u: Table)
    returns (r: Result<(Report, Option<Manifest>), RecoveryError>)
    requires Holds(builder.storage.cal, builder.storage.Of(dataset), t)
    requires Holds(builder.storage.cal, builder.storage.Of(recovery), u)
    requires Lists(listing, builder.storage.Of(dataset)) && Lists(again, builder.storage.Of(dataset))
    requires Lists(recovered, builder.storage.Of(recovery))
    modifies builder.storage
    ensures r.Ok? <==> StampedTable(builder.storage.cal, u)
                       && (u + t == map[] || AcceptsTable(builder.storage.cal, t, u + t))
    ensures Holds(builder.storage.cal, builder.storage.Of(dataset), if r.Ok? then u + t else t)
    ensures r.Ok? ==> r.value.0.added == |u + t| - |t|
    ensures forall other :: other != dataset ==> builder.storage.Of(other) == old(builder.storage.Of(other))
  {
    hide Holds, Enumerates, AddMissing, Gathered, AcceptsTable, Stamped, StampedTable, KeyOf, Lists, AllPlaced, Keyed,
      Reconciled;
    var storage := builder.storage;
    var canonicalRows := ReadTable(storage, dataset, listing, t);
    var recoveryRows := ReadTable(storage, recovery, recovered, u);
    ReconciledTables(storage.cal, canonicalRows, recoveryRows, t, u);
    StampedRows(storage.cal, recoveryRows, u);
    UnionTwice(t, u);
    r := Reconcile(builder, canonicalRows, recoveryRows, dataset, again, t);
  }

  lemma StampedRows(cal: Calendar, rows: seq<Record>, t: Table)
    requires Enumerates(rows, t)
    ensures Stamped(cal, rows) <==> StampedTable(cal, t)
  {
    hide KeyOf;
    if StampedTable(cal, t) {
      forall i | 0 <= i < |rows|
        ensures cal.stamp(rows[i].availableAt).Some?
      {
        assert rows[i] in rows;
        assert Stands(t, rows[i]);
      }
    }
  }
}
