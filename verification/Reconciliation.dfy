/** Merging recovered rows into the canonical dataset (`ingestion_reconcile.py`, `ingestion_retry.py`). */
module Reconciliation {
  import opened Base
  import opened Sorting
  import opened DataLake
  import opened MarketDataset

  datatype Report = Report(canonicalRows: nat, recoveryRows: nat, added: nat, replaced: nat, duplicates: nat,
                           outputRows: nat)

  datatype MergeError = BadTimestamp

  /** By key, then by timestamp. */
  function RecoveryLe(cal: Calendar): (r: (Record, Record) -> bool) {
    (a, b) => if KeyOf(a) != KeyOf(b) then KeyLe(KeyOf(a), KeyOf(b)) else StampOf(cal, a) <= StampOf(cal, b)
  }

  function StampOf(cal: Calendar, r: Record): (result: int) {
    match cal.stamp(r.availableAt)
    case Some(at) => at
    case None => 0
  }

  predicate Stamped(cal: Calendar, rows: seq<Record>) {
    forall i :: 0 <= i < |rows| ==> cal.stamp(rows[i].availableAt).Some?
  }

  lemma RecoveryLeIsPreorder(cal: Calendar)
    ensures TotalPreorder(RecoveryLe(cal))
  {
    var le := RecoveryLe(cal);
    forall a, b
      ensures le(a, b) || le(b, a)
    {
      KeyLeTotal(KeyOf(a), KeyOf(b));
    }
    forall a, b, c | le(a, b) && le(b, c)
      ensures le(a, c)
    {
      if KeyOf(a) != KeyOf(b) && KeyOf(b) != KeyOf(c) {
        KeyLeTransitive(KeyOf(a), KeyOf(b), KeyOf(c));
        if KeyOf(a) == KeyOf(c) {
          KeyLeAntisymmetric(KeyOf(a), KeyOf(b));
        }
      }
    }
  }

  /** Add each row whose key is still missing. */
  function AddMissing(t: Table, rows: seq<Record>): (r: Table) {
    if rows == [] then t
    else
      var before := AddMissing(t, rows[..|rows| - 1]);
      var last := rows[|rows| - 1];
      if KeyOf(last) in before then before else before[KeyOf(last) := last]
  }

  function Reconciled(cal: Calendar, canonical: seq<Record>, recovery: seq<Record>): (r: Table) {
    AddMissing(AddMissing(map[], canonical), Sort(recovery, RecoveryLe(cal)))
  }

  /** `m` is `t` with rows of `rows` added, and has a row for each of their keys. */
  ghost predicate Extends(t: Table, m: Table, rows: seq<Record>) {
    && (forall k :: k in t ==> k in m && m[k] == t[k])
    && (forall k :: k in m ==> k in t || (m[k] in rows && KeyOf(m[k]) == k))
    && (forall r :: r in rows ==> KeyOf(r) in m)
  }

  lemma ExtendsOneMore(t: Table, m: Table, rows: seq<Record>, last: Record)
    requires Extends(t, m, rows)
    ensures Extends(t, if KeyOf(last) in m then m else m[KeyOf(last) := last], rows + [last])
  {
    hide KeyOf;
  }

  lemma {:induction false} AddMissingShape(t: Table, rows: seq<Record>)
    ensures Extends(t, AddMissing(t, rows), rows)
    ensures Keyed(t) ==> Keyed(AddMissing(t, rows))
  {
    hide KeyOf;
    if rows != [] {
      var before, last := rows[..|rows| - 1], rows[|rows| - 1];
      assert rows == before + [last];
      AddMissingShape(t, before);
      ExtendsOneMore(t, AddMissing(t, before), before, last);
    }
  }

  lemma {:induction false} KeyStaysMissing(t: Table, rows: seq<Record>, k: Key)
    requires k !in t && forall j :: 0 <= j < |rows| ==> KeyOf(rows[j]) != k
    ensures k !in AddMissing(t, rows)
  {
    if rows != [] {
      KeyStaysMissing(t, rows[..|rows| - 1], k);
    }
  }

  /** `merge` */
  method Merge(cal: Calendar, canonical: seq<Record>, recovery: seq<Record>)
    returns (r: Result<(seq<Record>, Report), MergeError>)
    ensures r.Ok? <==> Stamped(cal, recovery)
    ensures r.Ok? ==>
              var (ordered, report) := r.value;
              var first, merged := AddMissing(map[], canonical), Reconciled(cal, canonical, recovery);
              && Enumerates(ordered, merged) && Sorted(ordered, KeyedLe)
              && report.canonicalRows == |canonical| && report.recoveryRows == |recovery|
              && report.added == |merged| - |first| && report.replaced == 0
              && report.added + report.duplicates == |recovery|
              && report.outputRows == |ordered| == |merged|
  {
    hide Enumerates, Sort, KeyOf;
    var first := KeepFirst(canonical);
    if exists i :: 0 <= i < |recovery| && cal.stamp(recovery[i].availableAt).None? {
      return Err(BadTimestamp);
    }
    SortElements(recovery, RecoveryLe(cal));
    var merged, added, duplicates := FillIn(first, Sort(recovery, RecoveryLe(cal)));
    AddMissingShape(map[], canonical);
    AddMissingShape(first, Sort(recovery, RecoveryLe(cal)));
    var ordered := Values(merged);
    SortKeepsEnumeration(ordered, KeyedLe, merged);
    KeyedLeIsPreorder();
    SortSorts(ordered, KeyedLe);
    ordered := Sort(ordered, KeyedLe);
    EnumerationSize(ordered, merged);
    r := Ok((ordered, Report(|canonical|, |recovery|, added, 0, duplicates, |ordered|)));
  }

  /** The first row of every canonical key. */
  method KeepFirst(canonical: seq<Record>) returns (merged: Table)
    ensures merged == AddMissing(map[], canonical)
  {
    merged := map[];
    for i := 0 to |canonical|
      invariant merged == AddMissing(map[], canonical[..i])
    {
      assert canonical[..i + 1][..i] == canonical[..i];
      if KeyOf(canonical[i]) !in merged {
        merged := merged[KeyOf(canonical[i]) := canonical[i]];
      }
    }
    assert canonical[..|canonical|] == canonical;
  }

  /** The recovery loop: rows whose key is present are duplicates, the others are added. */
  method FillIn(first: Table, sorted: seq<Record>) returns (merged: Table, added: nat, duplicates: nat)
    ensures merged == AddMissing(first, sorted)
    ensures added + duplicates == |sorted| && added == |merged| - |first|
  {
    hide KeyOf;
    merged, added, duplicates := first, 0, 0;
    for i := 0 to |sorted|
      invariant merged == AddMissing(first, sorted[..i])
      invariant added + duplicates == i && added == |merged| - |first|
    {
      assert sorted[..i + 1][..i] == sorted[..i];
      var key := KeyOf(sorted[i]);
      if key in merged {
        duplicates := duplicates + 1;
      } else {
        assert merged[key := sorted[i]].Keys == merged.Keys + {key};
        merged := merged[key := sorted[i]];
        added := added + 1;
      }
    }
    assert sorted[..|sorted|] == sorted;
  }

  lemma KeyedLeIsPreorder()
    ensures TotalPreorder(KeyedLe)
  {
    ByKeyIsPreorder(KeyedLe, KeyOf);
  }

  // ----- What the merge keeps and adds

  /** A canonical key keeps its first canonical row. */
  lemma {:induction false} FirstRowStays(t: Table, rows: seq<Record>, i: nat)
    requires i < |rows| && KeyOf(rows[i]) !in t && forall j :: 0 <= j < i ==> KeyOf(rows[j]) != KeyOf(rows[i])
    ensures KeyOf(rows[i]) in AddMissing(t, rows) && AddMissing(t, rows)[KeyOf(rows[i])] == rows[i]
  {
    var before := rows[..|rows| - 1];
    if i < |rows| - 1 {
      FirstRowStays(t, before, i);
    } else {
      KeyStaysMissing(t, before, KeyOf(rows[i]));
    }
  }

  /** On sorted rows, the row added for a missing key is available no later than any other row of that key. */
  lemma {:induction false} EarliestIsAdded(cal: Calendar, t: Table, rows: seq<Record>, i: nat)
    requires Sorted(rows, RecoveryLe(cal)) && i < |rows| && KeyOf(rows[i]) !in t
    ensures Earliest(cal, AddMissing(t, rows), rows[i])
  {
    hide KeyOf, StampOf, RecoveryLe, Sorted;
    var before := rows[..|rows| - 1];
    SortedPrefix(rows, RecoveryLe(cal));
    if i < |rows| - 1 {
      EarliestIsAdded(cal, t, before, i);
      AddingKeeps(t, rows);
    } else if KeyOf(rows[i]) in AddMissing(t, before) {
      var j := AddedRow(t, before, KeyOf(rows[i]));
      NoLaterInOrder(cal, rows, j, |rows| - 1);
    }
  }

  lemma SortedPrefix(rows: seq<Record>, le: (Record, Record) -> bool)
    requires Sorted(rows, le) && rows != []
    ensures Sorted(rows[..|rows| - 1], le)
  {
  }

  lemma AddingKeeps(t: Table, rows: seq<Record>)
    requires rows != []
    ensures var before := AddMissing(t, rows[..|rows| - 1]);
            forall k :: k in before ==> k in AddMissing(t, rows) && AddMissing(t, rows)[k] == before[k]
  {
    hide KeyOf;
  }

  lemma AddedRow(t: Table, rows: seq<Record>, k: Key) returns (i: nat)
    requires k in AddMissing(t, rows) && k !in t
    ensures i < |rows| && AddMissing(t, rows)[k] == rows[i] && KeyOf(rows[i]) == k
  {
    AddMissingShape(t, rows);
    hide KeyOf, AddMissing;
    i :| 0 <= i < |rows| && rows[i] == AddMissing(t, rows)[k];
  }

  lemma NoLaterInOrder(cal: Calendar, rows: seq<Record>, i: nat, j: nat)
    requires Sorted(rows, RecoveryLe(cal)) && i < j < |rows| && KeyOf(rows[i]) == KeyOf(rows[j])
    ensures StampOf(cal, rows[i]) <= StampOf(cal, rows[j])
  {
    hide KeyOf, StampOf, KeyLe;
    assert RecoveryLe(cal)(rows[i], rows[j]);
  }

  /** The table has a row of this key that is available no later. */
  predicate Earliest(cal: Calendar, m: Table, r: Record) {
    KeyOf(r) in m && KeyOf(m[KeyOf(r)]) == KeyOf(r) && StampOf(cal, m[KeyOf(r)]) <= StampOf(cal, r)
  }

  /**
   * The merge keeps every first canonical row, adds exactly the missing keys of the recovery rows, and gives each of
   * them its earliest available recovery row.
   */
  lemma MergeKeepsAndAdds(cal: Calendar, canonical: seq<Record>, recovery: seq<Record>)
    ensures var first, merged := AddMissing(map[], canonical), Reconciled(cal, canonical, recovery);
            && (forall i :: 0 <= i < |canonical|
                            && (forall j :: 0 <= j < i ==> KeyOf(canonical[j]) != KeyOf(canonical[i])) ==>
                  Stands(merged, canonical[i]))
            && (forall k :: k in merged <==> k in first || exists r :: r in recovery && KeyOf(r) == k)
            && (forall r :: r in recovery && KeyOf(r) !in first ==>
                  && KeyOf(r) in merged && merged[KeyOf(r)] in recovery
                  && StampOf(cal, merged[KeyOf(r)]) <= StampOf(cal, r))
  {
    var first := AddMissing(map[], canonical);
    var sorted := Sort(recovery, RecoveryLe(cal));
    var merged := AddMissing(first, sorted);
    SortElements(recovery, RecoveryLe(cal));
    RecoveryLeIsPreorder(cal);
    SortSorts(recovery, RecoveryLe(cal));
    hide Sort, Sorted;
    AddMissingShape(map[], canonical);
    AddMissingShape(first, sorted);
    forall i | 0 <= i < |canonical| && (forall j :: 0 <= j < i ==> KeyOf(canonical[j]) != KeyOf(canonical[i]))
      ensures Stands(merged, canonical[i])
    {
      FirstRowStays(map[], canonical, i);
    }
    forall r | r in recovery && KeyOf(r) !in first
      ensures KeyOf(r) in merged && merged[KeyOf(r)] in recovery && StampOf(cal, merged[KeyOf(r)]) <= StampOf(cal, r)
    {
      assert r in sorted;
      var i :| 0 <= i < |sorted| && sorted[i] == r;
      EarliestIsAdded(cal, first, sorted, i);
    }
  }

  /** Merging the same recovery rows into the result again changes nothing. */
  lemma MergeIsIdempotent(cal: Calendar, canonical: seq<Record>, recovery: seq<Record>, output: seq<Record>)
    requires Enumerates(output, Reconciled(cal, canonical, recovery))
    ensures AddMissing(map[], output) == Reconciled(cal, canonical, recovery)
    ensures Reconciled(cal, output, recovery) == Reconciled(cal, canonical, recovery)
  {
    var merged := Reconciled(cal, canonical, recovery);
    var sorted := Sort(recovery, RecoveryLe(cal));
    AddMissingShape(map[], canonical);
    AddMissingShape(AddMissing(map[], canonical), sorted);
    AddEnumeration(output, merged);
    SortElements(recovery, RecoveryLe(cal));
    NothingMissing(merged, sorted);
  }

  lemma AddEnumeration(rows: seq<Record>, t: Table)
    requires Enumerates(rows, t) && Keyed(t)
    ensures AddMissing(map[], rows) == t
  {
    AddMissingShape(map[], rows);
    var m := AddMissing(map[], rows);
    forall k
      ensures k in m <==> k in t
    {
      if k in t {
        assert t[k] in rows && KeyOf(t[k]) == k;
      }
      if k in m {
        assert Stands(t, m[k]);
      }
    }
    forall k | k in m
      ensures m[k] == t[k]
    {
      assert Stands(t, m[k]);
    }
  }

  lemma {:induction false} NothingMissing(t: Table, rows: seq<Record>)
    requires forall r :: r in rows ==> KeyOf(r) in t
    ensures AddMissing(t, rows) == t
  {
    if rows != [] {
      NothingMissing(t, rows[..|rows| - 1]);
    }
  }

  /** Different recovery rows never share both key and timestamp. */
  ghost predicate NoTies(cal: Calendar, rows: seq<Record>) {
    forall a, b :: a in rows && b in rows && KeyOf(a) == KeyOf(b) && StampOf(cal, a) == StampOf(cal, b) ==> a == b
  }

  /** Without ties the order in which recovery rows arrive does not matter. */
  lemma RecoveryOrderDoesNotMatter(cal: Calendar, canonical: seq<Record>, one: seq<Record>, other: seq<Record>)
    requires multiset(one) == multiset(other) && NoTies(cal, one)
    ensures Reconciled(cal, canonical, one) == Reconciled(cal, canonical, other)
  {
    var le := RecoveryLe(cal);
    RecoveryLeIsPreorder(cal);
    SortSorts(one, le);
    SortSorts(other, le);
    SortElements(one, le);
    SortElements(other, le);
    var a, b := Sort(one, le), Sort(other, le);
    forall x, y | x in a && y in a && le(x, y) && le(y, x)
      ensures x == y
    {
      if KeyOf(x) != KeyOf(y) {
        KeyLeAntisymmetric(KeyOf(x), KeyOf(y));
      }
    }
    SortedUnique(a, b, le);
  }

  // ----- Exactly which ties matter

  /** No row of its key is available before `r`. */
  predicate EarliestOf(cal: Calendar, rows: seq<Record>, r: Record) {
    forall i :: 0 <= i < |rows| && KeyOf(rows[i]) == KeyOf(r) ==> StampOf(cal, r) <= StampOf(cal, rows[i])
  }

  /** For every key the canonical rows lack, its earliest recovery rows are one and the same. */
  ghost predicate NoDecidingTies(cal: Calendar, canonical: seq<Record>, rows: seq<Record>) {
    forall a, b :: a in rows && b in rows && Tied(cal, canonical, rows, a, b) ==> a == b
  }

  predicate Tied(cal: Calendar, canonical: seq<Record>, rows: seq<Record>, a: Record, b: Record) {
    && KeyOf(a) == KeyOf(b) && KeyOf(a) !in AddMissing(map[], canonical)
    && EarliestOf(cal, rows, a) && EarliestOf(cal, rows, b)
  }

  /** Every arrival order of the recovery rows gives the same table. */
  ghost predicate OrderIrrelevant(cal: Calendar, canonical: seq<Record>, rows: seq<Record>) {
    forall other: seq<Record> :: multiset(other) == multiset(rows) ==>
      Reconciled(cal, canonical, other) == Reconciled(cal, canonical, rows)
  }

  lemma ReconciledEntry(cal: Calendar, canonical: seq<Record>, rows: seq<Record>, k: Key)
    ensures var first, merged := AddMissing(map[], canonical), Reconciled(cal, canonical, rows);
            && (k in merged <==> k in first || exists r :: r in rows && KeyOf(r) == k)
            && (k in first ==> merged[k] == first[k])
            && (k in merged && k !in first ==>
                  merged[k] in rows && KeyOf(merged[k]) == k && EarliestOf(cal, rows, merged[k]))
  {
    var first := AddMissing(map[], canonical);
    var sorted := Sort(rows, RecoveryLe(cal));
    SortElements(rows, RecoveryLe(cal));
    MergeKeepsAndAdds(cal, canonical, rows);
    hide Sort, KeyOf, StampOf;
    AddMissingShape(first, sorted);
    AddMissingShape(map[], canonical);
    var merged := AddMissing(first, sorted);
    if k in merged && k !in first {
      forall i | 0 <= i < |rows| && KeyOf(rows[i]) == k
        ensures StampOf(cal, merged[k]) <= StampOf(cal, rows[i])
      {
        assert rows[i] in rows;
      }
    }
  }

  lemma SameEarliest(cal: Calendar, one: seq<Record>, other: seq<Record>, r: Record)
    requires multiset(one) == multiset(other) && EarliestOf(cal, one, r)
    ensures EarliestOf(cal, other, r)
  {
    forall i | 0 <= i < |other| && KeyOf(other[i]) == KeyOf(r)
      ensures StampOf(cal, r) <= StampOf(cal, other[i])
    {
      assert other[i] in multiset(one);
    }
  }

  lemma PermutedReconciles(cal: Calendar, canonical: seq<Record>, rows: seq<Record>, other: seq<Record>)
    requires NoDecidingTies(cal, canonical, rows) && multiset(other) == multiset(rows)
    ensures Reconciled(cal, canonical, other) == Reconciled(cal, canonical, rows)
  {
    var a, b := Reconciled(cal, canonical, other), Reconciled(cal, canonical, rows);
    hide Reconciled, AddMissing, EarliestOf, KeyOf;
    assert forall r :: r in other <==> r in multiset(rows);
    forall k
      ensures k in a <==> k in b
      ensures k in a ==> a[k] == b[k]
    {
      ReconciledEntry(cal, canonical, rows, k);
      ReconciledEntry(cal, canonical, other, k);
      if k in a && k !in AddMissing(map[], canonical) {
        SameEarliest(cal, other, rows, a[k]);
        assert Tied(cal, canonical, rows, a[k], b[k]);
      }
    }
  }

  /** Row `i` first, the others in their order. */
  function MovedToFront(rows: seq<Record>, i: nat): (moved: seq<Record>)
    requires i < |rows|
    ensures multiset(moved) == multiset(rows)
  {
    assert rows == rows[..i] + [rows[i]] + rows[i + 1..];
    [rows[i]] + (rows[..i] + rows[i + 1..])
  }

  lemma {:induction false} InsertedAt(x: Record, s: seq<Record>, le: (Record, Record) -> bool) returns (p: nat)
    ensures p < |Insert(x, s, le)| && Insert(x, s, le)[p] == x
    ensures forall j :: 0 <= j < p ==> !le(x, Insert(x, s, le)[j])
  {
    if s == [] || le(x, s[0]) {
      p := 0;
    } else {
      var q := InsertedAt(x, s[1..], le);
      p := q + 1;
    }
  }

  /** Of tied rows, the one that arrives first is taken. */
  lemma TieTakesTheFirst(cal: Calendar, canonical: seq<Record>, rows: seq<Record>, i: nat)
    requires i < |rows| && KeyOf(rows[i]) !in AddMissing(map[], canonical) && EarliestOf(cal, rows, rows[i])
    ensures var merged := Reconciled(cal, canonical, MovedToFront(rows, i));
            KeyOf(rows[i]) in merged && merged[KeyOf(rows[i])] == rows[i]
  {
    var le, moved, r := RecoveryLe(cal), MovedToFront(rows, i), rows[i];
    SameEarliest(cal, rows, moved, r);
    var others := Sort(moved[1..], le);
    var sorted := Sort(moved, le);
    assert sorted == Insert(r, others, le);
    SortElements(moved, le);
    var p := InsertedAt(r, others, le);
    forall j | 0 <= j < p
      ensures KeyOf(sorted[j]) != KeyOf(r)
    {
      assert !le(r, sorted[j]);
      assert sorted[j] in moved;
    }
    FirstRowStays(AddMissing(map[], canonical), sorted, p);
  }

  /**
   * Every arrival order of the recovery rows reconciles alike if and only if, for every key the canonical rows lack,
   * its earliest recovery rows are all the same.
   */
  lemma OrderCondition(cal: Calendar, canonical: seq<Record>, rows: seq<Record>)
    ensures OrderIrrelevant(cal, canonical, rows) <==> NoDecidingTies(cal, canonical, rows)
  {
    if NoDecidingTies(cal, canonical, rows) {
      forall other: seq<Record> | multiset(other) == multiset(rows)
        ensures Reconciled(cal, canonical, other) == Reconciled(cal, canonical, rows)
      {
        PermutedReconciles(cal, canonical, rows, other);
      }
    } else {
      hide Reconciled, AddMissing, EarliestOf, KeyOf;
      var a, b :| a in rows && b in rows && Tied(cal, canonical, rows, a, b) && a != b;
      var i, j :| 0 <= i < |rows| && 0 <= j < |rows| && rows[i] == a && rows[j] == b;
      TieTakesTheFirst(cal, canonical, rows, i);
      TieTakesTheFirst(cal, canonical, rows, j);
      assert Reconciled(cal, canonical, MovedToFront(rows, i)) != Reconciled(cal, canonical, MovedToFront(rows, j));
    }
  }

  /** So a tie decides nothing when the canonical rows have the key, or when some other row of the key is earlier. */
  lemma TieWithoutEffect(cal: Calendar, canonical: seq<Record>, rows: seq<Record>)
    requires forall a, b :: a in rows && b in rows && KeyOf(a) == KeyOf(b)
                            && StampOf(cal, a) == StampOf(cal, b) && a != b ==>
               KeyOf(a) in AddMissing(map[], canonical) || !EarliestOf(cal, rows, a)
    ensures OrderIrrelevant(cal, canonical, rows)
  {
    forall a, b | a in rows && b in rows && Tied(cal, canonical, rows, a, b)
      ensures a == b
    {
      var i, j :| 0 <= i < |rows| && 0 <= j < |rows| && rows[i] == a && rows[j] == b;
    }
    OrderCondition(cal, canonical, rows);
  }
}
