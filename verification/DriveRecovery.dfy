/** Retry passes, publications and the final reconciliation in sequence, on the drive (`ingestion_retry.py`). */
module DriveRecovery {
  import opened Base
  import opened Sorting
  import opened DataLake
  import opened MarketDataset
  import opened Reconciliation
  import opened Retry
  import opened Recovery

  // ----- What arrives in the canonical dataset

  /** Publishing twice is publishing the rows of both. */
  lemma {:induction false} NewestAppend(cal: Calendar, u: Table, one: seq<Record>, other: seq<Record>)
    ensures Newest(cal, Newest(cal, u, one), other) == Newest(cal, u, one + other)
  {
    hide KeyOf, Supersedes;
    if other == [] {
      assert one + other == one;
    } else {
      var n := |other| - 1;
      NewestAppend(cal, u, one, other[..n]);
      assert (one + other)[..|one + other| - 1] == one + other[..n];
    }
  }

  /** The stored row of a key, if there is one, and the rows fetched since. */
  function EverFetched(u: Table, rows: seq<Record>, k: Key): (all: seq<Record>) {
    (if k in u then [u[k]] else []) + rows
  }

  /**
   * On the drive path a key the canonical table lacks gets the row the publications have kept: the latest available one
   * of all that were stored or fetched for it.
   */
  lemma DriveAddsLatest(cal: Calendar, u: Table, t: Table, rows: seq<Record>, k: Key)
    requires Keyed(u) && k !in t && (k in u || exists i :: 0 <= i < |rows| && KeyOf(rows[i]) == k)
    ensures k in Newest(cal, u, rows) + t
    ensures var arriving := (Newest(cal, u, rows) + t)[k];
            && EntryIsLatest(cal, u, rows, k, arriving) && KeyOf(arriving) == k && arriving in EverFetched(u, rows, k)
            && LatestOf(cal, EverFetched(u, rows, k), arriving)
  {
    hide KeyOf, StampOf, Newest;
    NewestIsLatest(cal, u, rows, k);
    LatestOfAll(cal, u, rows, k, Newest(cal, u, rows)[k]);
  }

  /** No row of its key is available after `r`. */
  predicate LatestOf(cal: Calendar, rows: seq<Record>, r: Record) {
    forall i :: 0 <= i < |rows| && KeyOf(rows[i]) == KeyOf(r) ==> StampOf(cal, rows[i]) <= StampOf(cal, r)
  }

  lemma LatestOfAll(cal: Calendar, u: Table, rows: seq<Record>, k: Key, r: Record)
    requires Keyed(u) && EntryIsLatest(cal, u, rows, k, r)
    ensures KeyOf(r) == k && r in EverFetched(u, rows, k) && LatestOf(cal, EverFetched(u, rows, k), r)
  {
    hide KeyOf, StampOf, EntryIsLatest;
    var all := EverFetched(u, rows, k);
    var shift := |all| - |rows|;
    assert forall i :: 0 <= i < |rows| ==> all[shift + i] == rows[i];
    LatestFetched(cal, u, rows, k, r);
    forall i | 0 <= i < |all| && KeyOf(all[i]) == KeyOf(r)
      ensures StampOf(cal, all[i]) <= StampOf(cal, r)
    {
      if shift <= i {
        assert all[i] == rows[i - shift];
      }
    }
  }

  lemma LatestFetched(cal: Calendar, u: Table, rows: seq<Record>, k: Key, r: Record)
    requires Keyed(u) && EntryIsLatest(cal, u, rows, k, r)
    ensures KeyOf(r) == k && r in EverFetched(u, rows, k) && LatestOf(cal, rows, r)
    ensures k in u ==> StampOf(cal, u[k]) <= StampOf(cal, r)
  {
    hide KeyOf, StampOf;
  }

  /** All rows of this key are available at the same time. */
  predicate OneStamp(cal: Calendar, rows: seq<Record>, k: Key) {
    forall i, j :: 0 <= i < |rows| && 0 <= j < |rows| && KeyOf(rows[i]) == k && KeyOf(rows[j]) == k ==>
      StampOf(cal, rows[i]) == StampOf(cal, rows[j])
  }

  /**
   * The merge promises a missing key its earliest row. On the drive path it gets one if and only if all rows ever
   * stored or fetched for the key are available at the same time.
   */
  lemma DriveAddsEarliestExactly(cal: Calendar, u: Table, t: Table, rows: seq<Record>, k: Key)
    requires Keyed(u) && k !in t && (k in u || exists i :: 0 <= i < |rows| && KeyOf(rows[i]) == k)
    ensures k in Newest(cal, u, rows) + t
    ensures EarliestOf(cal, EverFetched(u, rows, k), (Newest(cal, u, rows) + t)[k])
            <==> OneStamp(cal, EverFetched(u, rows, k), k)
  {
    hide KeyOf, StampOf, Newest, EntryIsLatest, EverFetched;
    DriveAddsLatest(cal, u, t, rows, k);
    var all, arriving := EverFetched(u, rows, k), (Newest(cal, u, rows) + t)[k];
    var p :| 0 <= p < |all| && all[p] == arriving;
    if EarliestOf(cal, all, arriving) {
      forall i | 0 <= i < |all| && KeyOf(all[i]) == k
        ensures StampOf(cal, all[i]) == StampOf(cal, arriving)
      {
      }
    }
  }

  /**
   * Merging the same rows directly takes an earliest one, so the two ways differ in timestamp exactly when not all
   * agree.
   */
  lemma DriveAgainstMerge(cal: Calendar, canonical: seq<Record>, u: Table, t: Table, rows: seq<Record>, k: Key)
    requires Enumerates(canonical, t) && Keyed(t) && Keyed(u) && k !in t
    requires k in u || exists i :: 0 <= i < |rows| && KeyOf(rows[i]) == k
    ensures var all := EverFetched(u, rows, k);
            && k in Newest(cal, u, rows) + t && k in Reconciled(cal, canonical, all)
            && (StampOf(cal, (Newest(cal, u, rows) + t)[k]) == StampOf(cal, Reconciled(cal, canonical, all)[k])
                <==> OneStamp(cal, all, k))
  {
    hide KeyOf, StampOf, Newest, Reconciled, AddMissing, EntryIsLatest, EverFetched, Enumerates;
    DriveAddsLatest(cal, u, t, rows, k);
    DriveAddsEarliestExactly(cal, u, t, rows, k);
    var all, arriving := EverFetched(u, rows, k), (Newest(cal, u, rows) + t)[k];
    AddEnumeration(canonical, t);
    ReconciledEntry(cal, canonical, all, k);
    var merged := Reconciled(cal, canonical, all)[k];
    var p :| 0 <= p < |all| && all[p] == arriving;
    var q :| 0 <= q < |all| && all[q] == merged;
  }

  // ----- Two rows of one key

  const LENGTHS := Calendar(_ => Some(0), _ => "", text => Some(|text|))
  const EARLY := Record("KRX", "A", "2024-01-02", "1", "source", [])
  const LATE := Record("KRX", "A", "2024-01-02", "12", "source", [])

  /** Merged directly the earlier row arrives, and on the drive path the later. */
  lemma DriveTakesTheLater()
    ensures KeyOf(EARLY) == KeyOf(LATE) && StampOf(LENGTHS, EARLY) == 1 && StampOf(LENGTHS, LATE) == 2
    ensures Reconciled(LENGTHS, [], [EARLY, LATE]) == map[KeyOf(EARLY) := EARLY]
    ensures Newest(LENGTHS, map[], [EARLY, LATE]) + map[] == map[KeyOf(EARLY) := LATE]
  {
    var k, rows := KeyOf(EARLY), [EARLY, LATE];
    var one := rows[..1];
    assert one == [EARLY] && one[..0] == [];
    assert Newest(LENGTHS, map[], one) == map[k := EARLY];
    assert Sort([LATE], RecoveryLe(LENGTHS)) == [LATE];
    assert rows[1..] == [LATE];
    assert Sort(rows, RecoveryLe(LENGTHS)) == rows;
    assert AddMissing(map[], one) == map[k := EARLY];
  }

  // ----- Passes, publications and the reconciliation in sequence

  function Flat(batches: seq<seq<Record>>): (rows: seq<Record>) {
    if batches == [] then [] else Flat(batches[..|batches| - 1]) + batches[|batches| - 1]
  }

  lemma OneMoreBatch(cal: Calendar, u: Table, batches: seq<seq<Record>>, rows: seq<Record>)
    ensures Newest(cal, u, Flat(batches + [rows])) == Newest(cal, Newest(cal, u, Flat(batches)), rows)
  {
    hide Newest;
    assert (batches + [rows])[..|batches|] == batches;
    NewestAppend(cal, u, Flat(batches), rows);
  }

  lemma {:induction false} OneMorePass(q: Queue, limit: int, passes: seq<FailureKey -> Answer>, n: nat)
    requires n < |passes|
    ensures AfterPasses(q, limit, passes[..n + 1]) == AfterPass(AfterPasses(q, limit, passes[..n]), limit, passes[n])
    decreases n
  {
    hide AfterPass;
    var some := passes[..n + 1];
    if n > 0 {
      OneMorePass(AfterPass(q, limit, passes[0]), limit, passes[1..], n - 1);
      assert some[1..] == passes[1..][..n] && passes[..n][1..] == passes[1..][..n - 1];
    } else {
      assert some[1..] == [] && passes[..n] == [];
    }
  }

  lemma PassKeepsKeys(q: Queue, limit: int, answers: FailureKey -> Answer)
    requires ValidQueue(q)
    ensures ValidQueue(AfterPass(q, limit, answers))
  {
  }

  /** The pass comes to an item it cannot collect, or what it fetched cannot be published over `u`. */
  ghost predicate PassFails(cal: Calendar, u: Table, q: Queue, limit: int, answers: FailureKey -> Answer) {
    || !AllCollected(q, limit)
    || exists rows :: RowsOfResolved(rows, q, limit, answers) && rows != [] && !CanPublish(cal, u, rows)
  }

  /** Each batch is what the pass of that number fetched. */
  ghost predicate FetchedBy(
    batches: seq<seq<Record>>, q: Queue, limit: int, passes: seq<FailureKey -> Answer>)
  {
    && |batches| <= |passes|
    && forall n :: 0 <= n < |batches| ==>
         RowsOfResolved(batches[n], AfterPasses(q, limit, passes[..n]), limit, passes[n])
  }

  /** The union of the two tables can be built over the canonical one. */
  predicate CanReconcile(cal: Calendar, t: Table, u: Table) {
    StampedTable(cal, u) && (u + t == map[] || AcceptsTable(cal, t, u + t))
  }

  /**
   * The passes in turn, each published; the first that fails ends it. The recovery dataset then holds the latest row of
   * every key over all that were fetched.
   */
  method RunAll(
    service: IngestionRetryService, queue: FailureQueue, passes: seq<FailureKey -> Answer>,
    builder: DailyDatasetBuilder, recovery: string, drive: (Partitions, nat) -> seq<string>, ghost u: Table)
    returns (failed: Option<RecoveryError>, remaining: FailureQueue, ghost batches: seq<seq<Record>>)
    requires ValidQueue(queue.items) && ListsFolders(drive)
    requires Holds(builder.storage.cal, builder.storage.Of(recovery), u)
    modifies builder.storage
    ensures FetchedBy(batches, queue.items, service.limit, passes)
    ensures Holds(builder.storage.cal, builder.storage.Of(recovery), Newest(builder.storage.cal, u, Flat(batches)))
    ensures failed.None? <==> |batches| == |passes|
    ensures failed.None? ==> remaining.items == AfterPasses(queue.items, service.limit, passes)
    ensures failed.Some? ==>
              PassFails(builder.storage.cal, Newest(builder.storage.cal, u, Flat(batches)),
                        AfterPasses(queue.items, service.limit, passes[..|batches|]), service.limit, passes[|batches|])
    ensures forall other :: other != recovery ==> builder.storage.Of(other) == old(builder.storage.Of(other))
  {
    hide Holds, CanPublish, AfterPass, RowsOfResolved, AllCollected, Newest, Lists, KeyOfFailure;
    ghost var cal := builder.storage.cal;
    failed, remaining, batches := None, queue, [];
    assert Newest(cal, u, []) == u by { NewestOfNone(cal, u); }
    for n := 0 to |passes|
      invariant failed.None? && |batches| == n && FetchedBy(batches, queue.items, service.limit, passes)
      invariant ValidQueue(remaining.items) && remaining.items == AfterPasses(queue.items, service.limit, passes[..n])
      invariant Holds(cal, builder.storage.Of(recovery), Newest(cal, u, Flat(batches)))
      invariant forall other :: other != recovery ==> builder.storage.Of(other) == old(builder.storage.Of(other))
    {
      OneMorePass(queue.items, service.limit, passes, n);
      PassKeepsKeys(remaining.items, service.limit, passes[n]);
      var listing := drive(builder.storage.Of(recovery), n);
      ghost var q, stored := remaining.items, Newest(cal, u, Flat(batches));
      var r;
      ghost var fetched;
      r, remaining, fetched :=
        RunAndPublish(service, remaining, passes[n], builder, recovery, listing, listing, stored);
      if r.Err? {
        failed := Some(r.error);
        return;
      }
      OneMoreBatch(cal, u, batches, fetched);
      batches := batches + [fetched];
    }
    assert passes[..|passes|] == passes;
  }

  lemma NewestOfNone(cal: Calendar, u: Table)
    ensures Newest(cal, u, []) == u && Flat([]) == []
  {
  }

  /** Each key the canonical table lacks has a latest one of all rows stored and fetched for it. */
  ghost predicate MissingAreLatest(cal: Calendar, t: Table, u: Table, rows: seq<Record>, merged: Table) {
    && (forall k :: k in t ==> k in merged && merged[k] == t[k])
    && (forall k :: k in merged && k !in t ==>
          merged[k] in EverFetched(u, rows, k) && KeyOf(merged[k]) == k
          && LatestOf(cal, EverFetched(u, rows, k), merged[k]))
  }

  lemma DriveMerges(cal: Calendar, u: Table, t: Table, rows: seq<Record>)
    requires Keyed(u)
    ensures MissingAreLatest(cal, t, u, rows, Newest(cal, u, rows) + t)
  {
    hide KeyOf, Newest, LatestOf, EntryIsLatest, EverFetched;
    var merged := Newest(cal, u, rows) + t;
    forall k | k in merged && k !in t
      ensures merged[k] in EverFetched(u, rows, k) && KeyOf(merged[k]) == k
      ensures LatestOf(cal, EverFetched(u, rows, k), merged[k])
    {
      NewestIsLatest(cal, u, rows, k);
      DriveAddsLatest(cal, u, t, rows, k);
    }
  }

  /**
   * Any number of passes with their publications, and then the reconciliation: unless a step raises, the canonical
   * dataset holds its own rows and, for every key it lacked, a latest one of all rows stored or fetched for it.
   */
  method RecoverAndReconcile(
    service: IngestionRetryService, queue: FailureQueue, passes: seq<FailureKey -> Answer>,
    builder: DailyDatasetBuilder,
    dataset: string, recovery: string, drive: (Partitions, nat) -> seq<string>, ghost t: Table, ghost u: Table)
    returns (failed: Option<RecoveryError>, remaining: FailureQueue, ghost batches: seq<seq<Record>>)
    requires ValidQueue(queue.items) && ListsFolders(drive) && dataset != recovery
    requires Holds(builder.storage.cal, builder.storage.Of(dataset), t)
    requires Holds(builder.storage.cal, builder.storage.Of(recovery), u)
    modifies builder.storage
    ensures FetchedBy(batches, queue.items, service.limit, passes)
    ensures Holds(builder.storage.cal, builder.storage.Of(recovery), Newest(builder.storage.cal, u, Flat(batches)))
    ensures failed.None? <==>
            |batches| == |passes| && CanReconcile(builder.storage.cal, t, Newest(builder.storage.cal, u, Flat(batches)))
    ensures failed.None? ==> remaining.items == AfterPasses(queue.items, service.limit, passes)
    ensures var merged := Newest(builder.storage.cal, u, Flat(batches)) + t;
            && MissingAreLatest(builder.storage.cal, t, u, Flat(batches), merged)
            && Holds(builder.storage.cal, builder.storage.Of(dataset), if failed.None? then merged else t)
    ensures |batches| < |passes| ==>
              PassFails(builder.storage.cal, Newest(builder.storage.cal, u, Flat(batches)),
                        AfterPasses(queue.items, service.limit, passes[..|batches|]), service.limit, passes[|batches|])
    ensures forall other :: other !in {dataset, recovery} ==>
              builder.storage.Of(other) == old(builder.storage.Of(other))
  {
    hide Holds, RowsOfResolved, Newest, Lists, KeyOfFailure, FetchedBy, PassFails, AfterPasses, MissingAreLatest, Flat,
      AcceptsTable, StampedTable;
    ghost var cal := builder.storage.cal;
    HeldIsKeyed(cal, builder.storage.Of(recovery), u);
    failed, remaining, batches := RunAll(service, queue, passes, builder, recovery, drive, u);
    DriveMerges(cal, u, t, Flat(batches));
    if failed.None? {
      var listing := drive(builder.storage.Of(dataset), 0);
      var recovered := drive(builder.storage.Of(recovery), 1);
      var r := ReconcileFromDrive(builder, dataset, recovery, listing, listing, recovered, t,
                                  Newest(cal, u, Flat(batches)));
      if r.Err? {
        failed := Some(r.error);
      }
    }
  }
}
