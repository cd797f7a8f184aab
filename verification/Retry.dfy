/** Collecting with retries, and repeated retry passes over a failure queue
    (`market_ingestion.py`, `ingestion_run.py`, `ingestion_retry.py`). */
module Retry {
  import opened Base
  import opened Sorting
  import opened Totals
  import opened DataLake

  /** What the provider does with one fetch: normalised rows, or an exception of some kind. */
  datatype Answer = Fetched(rows: seq<Record>) | Raised(kind: string)

  function RowsIn(answer: Answer): (r: seq<Record>) {
    if answer.Fetched? then answer.rows else []
  }

  // ----- ResilientDailyCollector.collect

  datatype SymbolFailure = SymbolFailure(symbol: string, error: string, attempts: nat)

  datatype CollectError = BadRange | MissingMarket | MissingSource

  datatype CollectReport = CollectReport(requested: nat, ok: nat, failures: seq<SymbolFailure>, rows: seq<Record>)

  predicate Complete(r: CollectReport) {
    r.requested > 0 && r.ok == r.requested && r.failures == []
  }

  /** The first attempt that the provider answers with rows; `tries + 1` when none of them is. */
  function FirstSuccess(answers: (string, nat) -> Answer, symbol: string, from: nat, tries: nat): (n: nat)
    requires from <= tries + 1
    ensures from <= n <= tries + 1
    ensures n <= tries ==> answers(symbol, n).Fetched?
    ensures forall k :: from <= k < n ==> answers(symbol, k).Raised?
    decreases tries + 1 - from
  {
    if from > tries then tries + 1
    else if answers(symbol, from).Fetched? then from
    else FirstSuccess(answers, symbol, from + 1, tries)
  }

  predicate Succeeds(answers: (string, nat) -> Answer, symbol: string, tries: nat) {
    FirstSuccess(answers, symbol, 1, tries) <= tries
  }

  function CollectedRows(answers: (string, nat) -> Answer, symbols: seq<string>, tries: nat): (r: seq<Record>) {
    if symbols == [] then []
    else
      var last := symbols[|symbols| - 1];
      CollectedRows(answers, symbols[..|symbols| - 1], tries)
      + (if Succeeds(answers, last, tries) then answers(last, FirstSuccess(answers, last, 1, tries)).rows else [])
  }

  function KindOf(answer: Answer): (r: string) {
    if answer.Raised? then answer.kind else ""
  }

  /** The symbols that never succeed, each with the exception of its last try. */
  function CollectedFailures(answers: (string, nat) -> Answer, symbols: seq<string>, tries: nat)
    : (r: seq<SymbolFailure>)
  {
    if symbols == [] then []
    else
      var last := symbols[|symbols| - 1];
      CollectedFailures(answers, symbols[..|symbols| - 1], tries)
      + (if Succeeds(answers, last, tries) then [] else [SymbolFailure(last, KindOf(answers(last, tries)), tries)])
  }

  function FetchCount(answers: (string, nat) -> Answer, symbols: seq<string>, tries: nat): (r: nat) {
    if symbols == [] then 0
    else
      var last := symbols[|symbols| - 1];
      FetchCount(answers, symbols[..|symbols| - 1], tries)
      + (if Succeeds(answers, last, tries) then FirstSuccess(answers, last, 1, tries) else tries)
  }

  function Collected(answers: (string, nat) -> Answer, symbols: seq<string>, tries: nat): (r: CollectReport)
    requires |CollectedFailures(answers, symbols, tries)| <= |symbols|
  {
    var failures := CollectedFailures(answers, symbols, tries);
    CollectReport(|symbols|, |symbols| - |failures|, failures, CollectedRows(answers, symbols, tries))
  }

  /** Stripped, without blanks and repetitions. */
  function Named(symbols: seq<string>): (r: seq<string>) {
    if symbols == [] then []
    else
      var before, s := Named(symbols[..|symbols| - 1]), Strip(symbols[|symbols| - 1]);
      if s == "" || s in before then before else before + [s]
  }

  /** The same in ascending order. */
  function SymbolsOf(symbols: seq<string>): (r: seq<string>) {
    Sort(Named(symbols), StringLe)
  }

  lemma {:induction false} NamedMeans(symbols: seq<string>)
    ensures forall s :: s in Named(symbols) <==> s != "" && exists i :: 0 <= i < |symbols| && Strip(symbols[i]) == s
    ensures forall i, j :: 0 <= i < j < |Named(symbols)| ==> Named(symbols)[i] != Named(symbols)[j]
  {
    hide Strip;
    if symbols != [] {
      var n := |symbols| - 1;
      var before := symbols[..n];
      NamedMeans(before);
      forall s
        ensures s in Named(symbols) <==> s != "" && exists i :: 0 <= i < |symbols| && Strip(symbols[i]) == s
      {
        if s in Named(before) {
          var i :| 0 <= i < |before| && Strip(before[i]) == s;
          assert Strip(symbols[i]) == s;
        }
        if i :| 0 <= i < |symbols| && Strip(symbols[i]) == s {
          assert i < n ==> Strip(before[i]) == s;
        }
      }
    }
  }

  /** The symbols asked for are exactly the non-blank stripped ones, each once, in ascending order. */
  lemma SymbolsMeans(symbols: seq<string>)
    ensures forall s :: s in SymbolsOf(symbols) <==> s != "" && exists i :: 0 <= i < |symbols| && Strip(symbols[i]) == s
    ensures forall i, j :: 0 <= i < j < |SymbolsOf(symbols)| ==> SymbolsOf(symbols)[i] != SymbolsOf(symbols)[j]
    ensures Sorted(SymbolsOf(symbols), StringLe)
  {
    hide Strip;
    NamedMeans(symbols);
    StringLeIsPreorder();
    SortSorts(Named(symbols), StringLe);
    SortElements(Named(symbols), StringLe);
    DistinctAfterSort(Named(symbols));
  }

  method NormalizedSymbols(symbols: seq<string>) returns (names: seq<string>)
    ensures names == SymbolsOf(symbols)
  {
    hide Strip;
    names := [];
    for i := 0 to |symbols|
      invariant names == Named(symbols[..i])
    {
      assert symbols[..i + 1][..i] == symbols[..i];
      var s := Strip(symbols[i]);
      if s != "" && s !in names {
        names := names + [s];
      }
    }
    assert symbols[..|symbols|] == symbols;
    names := Sort(names, StringLe);
  }

  /** The retry loop of one symbol: it stops at the first success, or after `tries` exceptions. */
  method FetchSymbol(answers: (string, nat) -> Answer, symbol: string, tries: nat)
    returns (fetched: Option<seq<Record>>, lastError: string, fetches: nat)
    requires 1 <= tries
    ensures fetched.Some? <==> Succeeds(answers, symbol, tries)
    ensures fetched.Some? ==>
              fetches == FirstSuccess(answers, symbol, 1, tries) && fetched.value == answers(symbol, fetches).rows
    ensures fetched.None? ==> fetches == tries && lastError == KindOf(answers(symbol, tries))
  {
    lastError := "";
    fetches := 0;
    for attempt := 1 to tries + 1
      invariant fetches == attempt - 1
      invariant FirstSuccess(answers, symbol, 1, tries) == FirstSuccess(answers, symbol, attempt, tries)
      invariant attempt > 1 ==> lastError == KindOf(answers(symbol, attempt - 1))
    {
      fetches := fetches + 1;
      match answers(symbol, attempt) {
        case Fetched(rows) => return Some(rows), lastError, fetches;
        case Raised(kind) => lastError := kind;
      }
    }
    fetched := None;
  }

  /** `collect` for normalised symbols */
  method CollectSymbols(answers: (string, nat) -> Answer, symbols: seq<string>, tries: nat)
    returns (report: CollectReport, fetches: nat)
    requires 1 <= tries
    ensures |CollectedFailures(answers, symbols, tries)| <= |symbols|
    ensures report == Collected(answers, symbols, tries) && fetches == FetchCount(answers, symbols, tries)
  {
    hide Succeeds, FirstSuccess, KindOf;
    var rows: seq<Record>, failures: seq<SymbolFailure>, ok := [], [], 0;
    fetches := 0;
    for i := 0 to |symbols|
      invariant ok + |failures| == i && fetches == FetchCount(answers, symbols[..i], tries)
      invariant rows == CollectedRows(answers, symbols[..i], tries)
                && failures == CollectedFailures(answers, symbols[..i], tries)
    {
      assert symbols[..i + 1][..i] == symbols[..i];
      var fetched, lastError, count := FetchSymbol(answers, symbols[i], tries);
      fetches := fetches + count;
      if fetched.Some? {
        rows := rows + fetched.value;
        ok := ok + 1;
      } else {
        failures := failures + [SymbolFailure(symbols[i], lastError, tries)];
      }
    }
    assert symbols[..|symbols|] == symbols;
    report := CollectReport(|symbols|, ok, failures, rows);
  }

  /** Never more failures than symbols, and at most `tries` fetches for each symbol. */
  lemma {:induction false} FetchesBounded(answers: (string, nat) -> Answer, symbols: seq<string>, tries: nat)
    requires 1 <= tries
    ensures |CollectedFailures(answers, symbols, tries)| <= |symbols|
    ensures |symbols| <= FetchCount(answers, symbols, tries) <= tries * |symbols|
  {
    if symbols != [] {
      FetchesBounded(answers, symbols[..|symbols| - 1], tries);
      assert tries * |symbols| == tries * (|symbols| - 1) + tries;
    }
  }

  predicate ReportsFailure(failures: seq<SymbolFailure>, symbol: string) {
    exists i :: 0 <= i < |failures| && failures[i].symbol == symbol
  }

  /** A symbol is reported as failed exactly when it was asked for and every try raised. */
  lemma {:induction false} FailedWhenAllRaised(
    answers: (string, nat) -> Answer, symbols: seq<string>, tries: nat, symbol: string)
    ensures ReportsFailure(CollectedFailures(answers, symbols, tries), symbol) <==>
            symbol in symbols && forall k :: 1 <= k <= tries ==> answers(symbol, k).Raised?
  {
    hide FirstSuccess, Succeeds, KindOf;
    if symbols != [] {
      var n := |symbols| - 1;
      var before, last := symbols[..n], symbols[n];
      FailedWhenAllRaised(answers, before, tries, symbol);
      assert symbols == before + [last];
      SucceedsMeans(answers, last, tries);
      var was, failures := CollectedFailures(answers, before, tries), CollectedFailures(answers, symbols, tries);
      assert forall i :: 0 <= i < |was| ==> failures[i] == was[i];
      if !Succeeds(answers, last, tries) {
        assert failures[|was|].symbol == last;
      }
    }
  }

  /** The report is complete exactly when something was asked for and every symbol succeeded. */
  lemma {:induction false} CompleteWhenAllSucceed(answers: (string, nat) -> Answer, symbols: seq<string>, tries: nat)
    requires 1 <= tries
    ensures |CollectedFailures(answers, symbols, tries)| <= |symbols|
    ensures Complete(Collected(answers, symbols, tries)) <==>
            symbols != [] && forall s :: s in symbols ==> Succeeds(answers, s, tries)
  {
    FetchesBounded(answers, symbols, tries);
    var failures := CollectedFailures(answers, symbols, tries);
    hide CollectedFailures, FirstSuccess, Succeeds, FetchCount;
    forall s | s in symbols
      ensures Succeeds(answers, s, tries) <==> !ReportsFailure(failures, s)
    {
      FailedWhenAllRaised(answers, symbols, tries, s);
      SucceedsMeans(answers, s, tries);
    }
    if failures != [] {
      var s := failures[0].symbol;
      assert ReportsFailure(failures, s);
      FailedWhenAllRaised(answers, symbols, tries, s);
    }
  }

  lemma {:induction false} SucceedsMeans(answers: (string, nat) -> Answer, symbol: string, tries: nat)
    ensures Succeeds(answers, symbol, tries) <==> !(forall k :: 1 <= k <= tries ==> answers(symbol, k).Raised?)
  {
    var n := FirstSuccess(answers, symbol, 1, tries);
    if n <= tries {
      assert answers(symbol, n).Fetched?;
    }
  }

  method Collect(
    answers: (string, nat) -> Answer, symbols: seq<string>, start: int, end: int, market: string, source: string,
    tries: nat)
    returns (r: Result<CollectReport, CollectError>, fetches: nat)
    requires 1 <= tries
    ensures start > end ==> r == Err(BadRange)
    ensures start <= end && Strip(market) == "" ==> r == Err(MissingMarket)
    ensures start <= end && Strip(market) != "" && Strip(source) == "" ==> r == Err(MissingSource)
    ensures start <= end && Strip(market) != "" && Strip(source) != "" ==>
              var names := SymbolsOf(symbols);
              && |CollectedFailures(answers, names, tries)| <= |names|
              && r == Ok(Collected(answers, names, tries)) && fetches == FetchCount(answers, names, tries)
    ensures r.Err? ==> fetches == 0
  {
    hide Strip;
    fetches := 0;
    if start > end {
      return Err(BadRange), 0;
    }
    if Strip(market) == "" {
      return Err(MissingMarket), 0;
    }
    if Strip(source) == "" {
      return Err(MissingSource), 0;
    }
    var names := NormalizedSymbols(symbols);
    var report;
    report, fetches := CollectSymbols(answers, names, tries);
    r := Ok(report);
  }

  // ----- FailureQueue

  /** A failed collection; dates are days. */
  datatype Failure = Failure(
    market: string, symbol: string, start: int, end: int, error: string, attempts: int, retryable: bool)

  datatype FailureKey = FailureKey(market: string, symbol: string, start: int, end: int)

  function KeyOfFailure(f: Failure): (r: FailureKey) {
    FailureKey(f.market, f.symbol, f.start, f.end)
  }

  type Queue = map<FailureKey, Failure>

  predicate ValidQueue(q: Queue) {
    forall k :: k in q ==> KeyOfFailure(q[k]) == k
  }

  predicate FailureLe(a: Failure, b: Failure) {
    if a.market != b.market then StringLe(a.market, b.market)
    else if a.symbol != b.symbol then StringLe(a.symbol, b.symbol)
    else if a.start != b.start then a.start <= b.start
    else a.end <= b.end
  }

  /** Each listed failure stands in the queue, and no two are the same. */
  ghost predicate ListsItems(items: seq<Failure>, q: Queue, wanted: Failure -> bool) {
    && (forall i :: 0 <= i < |items| ==>
        KeyOfFailure(items[i]) in q && q[KeyOfFailure(items[i])] == items[i] && wanted(items[i]))
    && (forall i, j :: 0 <= i < j < |items| ==> items[i] != items[j])
    && (forall k :: k in q && wanted(q[k]) ==> q[k] in items)
  }

  class FailureQueue {
    var items: Queue

    constructor ()
      ensures items == map[]
    {
      items := map[];
    }

    /** A failure replaces one of the same range unless it has been tried less often. */
    method Add(f: Failure)
      modifies this
      ensures var k := KeyOfFailure(f);
              items == if k !in old(items) || f.attempts >= old(items)[k].attempts then old(items)[k := f]
                else old(items)
    {
      var key := KeyOfFailure(f);
      if key !in items || f.attempts >= items[key].attempts {
        items := items[key := f];
      }
    }

    /** The items of one kind, in ascending order of market, symbol and range. */
    method Select(wanted: Failure -> bool) returns (found: seq<Failure>)
      requires ValidQueue(items)
      ensures ListsItems(found, items, wanted)
      ensures found == Sort(found, FailureLe)
    {
      found := [];
      var todo := items.Keys;
      while todo != {}
        invariant todo <= items.Keys
        invariant forall i :: 0 <= i < |found| ==>
                    KeyOfFailure(found[i]) in items && items[KeyOfFailure(found[i])] == found[i] && wanted(found[i])
                    && KeyOfFailure(found[i]) !in todo
        invariant forall i, j :: 0 <= i < j < |found| ==> found[i] != found[j]
        invariant forall k :: k in items && wanted(items[k]) ==> k in todo || items[k] in found
        decreases todo
      {
        var key :| key in todo;
        todo := todo - {key};
        if wanted(items[key]) {
          found := found + [items[key]];
        }
      }
      ListsSorted(found, items, wanted);
      found := Sort(found, FailureLe);
    }
  }

  lemma FailureLeIsPreorder()
    ensures TotalPreorder(FailureLe)
  {
    forall a, b
      ensures FailureLe(a, b) || FailureLe(b, a)
    {
      StringLeTotal(a.market, b.market);
      StringLeTotal(a.symbol, b.symbol);
    }
    forall a, b, c | FailureLe(a, b) && FailureLe(b, c)
      ensures FailureLe(a, c)
    {
      if a.market != b.market && b.market != c.market {
        StringLeTransitive(a.market, b.market, c.market);
        if a.market == c.market {
          StringLeAntisymmetric(a.market, b.market);
        }
      } else if a.market == b.market == c.market && a.symbol != b.symbol && b.symbol != c.symbol {
        StringLeTransitive(a.symbol, b.symbol, c.symbol);
        if a.symbol == c.symbol {
          StringLeAntisymmetric(a.symbol, b.symbol);
        }
      }
    }
  }

  lemma ListsSorted(items: seq<Failure>, q: Queue, wanted: Failure -> bool)
    requires ListsItems(items, q, wanted)
    ensures ListsItems(Sort(items, FailureLe), q, wanted)
    ensures Sort(Sort(items, FailureLe), FailureLe) == Sort(items, FailureLe)
  {
    var sorted := Sort(items, FailureLe);
    SortElements(items, FailureLe);
    FailureLeIsPreorder();
    SortSorts(items, FailureLe);
    SortOfSorted(sorted, FailureLe);
    CountsAtMostOne(items);
    forall i | 0 <= i < |sorted|
      ensures KeyOfFailure(sorted[i]) in q && q[KeyOfFailure(sorted[i])] == sorted[i] && wanted(sorted[i])
    {
      assert sorted[i] in items;
    }
    forall i, j | 0 <= i < j < |sorted|
      ensures sorted[i] != sorted[j]
    {
      if sorted[i] == sorted[j] {
        RepeatsCount(sorted, i, j);
      }
    }
  }

  // ----- One retry pass

  predicate Due(f: Failure, limit: int) {
    f.retryable && f.attempts < limit
  }

  /** A blank symbol leaves nothing to fetch, which counts as a failed attempt too. */
  predicate Resolves(f: Failure, limit: int, answers: FailureKey -> Answer) {
    Due(f, limit) && Strip(f.symbol) != "" && answers(KeyOfFailure(f)).Fetched?
  }

  /** What stays in the queue of an item that is not resolved. */
  function Bumped(f: Failure, limit: int, answers: FailureKey -> Answer): (r: Failure) {
    if !Due(f, limit) then f
    else
      var error := if Strip(f.symbol) != "" && answers(KeyOfFailure(f)).Raised? then answers(KeyOfFailure(f)).kind
        else f.error;
      f.(error := error, attempts := f.attempts + 1, retryable := f.attempts + 1 < limit)
  }

  function AfterPass(q: Queue, limit: int, answers: FailureKey -> Answer): (r: Queue) {
    map k | k in q && !Resolves(q[k], limit, answers) :: Bumped(q[k], limit, answers)
  }

  function DueKeys(q: Queue, limit: int): (r: set<FailureKey>) {
    set k | k in q && Due(q[k], limit)
  }

  function ResolvedKeys(q: Queue, limit: int, answers: FailureKey -> Answer): (r: set<FailureKey>) {
    set k | k in q && Resolves(q[k], limit, answers)
  }

  /** The collector refuses the range or the market of an item; the pass raises when it comes to one. */
  predicate Collectable(f: Failure) {
    f.start <= f.end && Strip(f.market) != ""
  }

  datatype PassReport = PassReport(attempted: nat, resolved: nat, remaining: nat, rows: seq<Record>)

  /** What the pass has made of the part of the queue it has been through. */
  ghost predicate PassState(
    done: Queue, limit: int, answers: FailureKey -> Answer, remaining: Queue, attempted: nat, resolved: nat)
  {
    && remaining == AfterPass(done, limit, answers)
    && attempted == |DueKeys(done, limit)|
    && resolved == |ResolvedKeys(done, limit, answers)|
  }

  lemma PassOneMore(
    done: Queue, limit: int, answers: FailureKey -> Answer, remaining: Queue, attempted: nat, resolved: nat, f: Failure)
    requires PassState(done, limit, answers, remaining, attempted, resolved) && KeyOfFailure(f) !in done
    ensures var k := KeyOfFailure(f);
            PassState(done[k := f], limit, answers,
                      if Resolves(f, limit, answers) then remaining else remaining[k := Bumped(f, limit, answers)],
                      if Due(f, limit) then attempted + 1 else attempted,
                      if Resolves(f, limit, answers) then resolved + 1 else resolved)
  {
    DueOneMore(done, limit, f);
    ResolvedOneMore(done, limit, answers, f);
    AfterOneMore(done, limit, answers, f);
    hide Due, Resolves, AfterPass, DueKeys, ResolvedKeys;
  }

  lemma DueOneMore(done: Queue, limit: int, f: Failure)
    requires KeyOfFailure(f) !in done
    ensures |DueKeys(done[KeyOfFailure(f) := f], limit)| == |DueKeys(done, limit)| + (if Due(f, limit) then 1 else 0)
  {
    hide Due;
    var k := KeyOfFailure(f);
    assert DueKeys(done[k := f], limit) == if Due(f, limit) then DueKeys(done, limit) + {k} else DueKeys(done, limit);
  }

  lemma ResolvedOneMore(done: Queue, limit: int, answers: FailureKey -> Answer, f: Failure)
    requires KeyOfFailure(f) !in done
    ensures |ResolvedKeys(done[KeyOfFailure(f) := f], limit, answers)|
            == |ResolvedKeys(done, limit, answers)| + (if Resolves(f, limit, answers) then 1 else 0)
  {
    hide Resolves;
    var k := KeyOfFailure(f);
    assert ResolvedKeys(done[k := f], limit, answers)
        == if Resolves(f, limit, answers) then ResolvedKeys(done, limit, answers) + {k}
          else ResolvedKeys(done, limit, answers);
  }

  lemma AfterOneMore(done: Queue, limit: int, answers: FailureKey -> Answer, f: Failure)
    requires KeyOfFailure(f) !in done
    ensures AfterPass(done[KeyOfFailure(f) := f], limit, answers)
            == if Resolves(f, limit, answers) then AfterPass(done, limit, answers)
               else AfterPass(done, limit, answers)[KeyOfFailure(f) := Bumped(f, limit, answers)]
  {
    hide Resolves, Bumped;
  }

  lemma NothingPassed(limit: int, answers: FailureKey -> Answer)
    ensures PassState(map[], limit, answers, map[], 0, 0)
  {
    assert DueKeys(map[], limit) == {} && ResolvedKeys(map[], limit, answers) == {};
    assert AfterPass(map[], limit, answers) == map[];
  }

  /** An item that has not been passed yet is not in the new queue either, so adding it is a plain insertion. */
  lemma NotYetIn(
    done: Queue, limit: int, answers: FailureKey -> Answer, remaining: Queue, attempted: nat, resolved: nat,
    k: FailureKey)
    requires PassState(done, limit, answers, remaining, attempted, resolved) && k !in done
    ensures k !in remaining
  {
  }

  /** `done` is the part of the queue listed in `items`. */
  ghost predicate Covers(done: Queue, q: Queue, items: seq<Failure>) {
    && (forall k :: k in done <==> k in q && q[k] in items)
    && (forall k :: k in done ==> done[k] == q[k])
  }

  lemma CoversOneMore(done: Queue, q: Queue, items: seq<Failure>, wanted: Failure -> bool, earlier: seq<Failure>,
                      i: nat)
    requires ValidQueue(q) && ListsItems(items, q, wanted) && i < |items| && Covers(done, q, earlier + items[..i])
    requires forall f :: f in earlier ==> !wanted(f)
    ensures var f := items[i];
            var k := KeyOfFailure(f);
            && k in q && q[k] == f && wanted(f) && k !in done
            && Covers(done[k := f], q, earlier + items[..i + 1])
  {
    var f := items[i];
    var k := KeyOfFailure(f);
    assert earlier + items[..i + 1] == earlier + items[..i] + [f];
    assert f !in items[..i];
    forall l
      ensures l in done[k := f] <==> l in q && q[l] in earlier + items[..i + 1]
    {
      if l in q && q[l] == f {
        assert l == k;
      }
    }
  }

  predicate Retryable(f: Failure) {
    f.retryable
  }

  predicate NotRetryable(f: Failure) {
    !f.retryable
  }

  lemma NothingCovered(q: Queue, kept: seq<Failure>)
    ensures Covers(map[], q, [] + kept[..0])
  {
  }

  lemma NotDue(f: Failure, limit: int, answers: FailureKey -> Answer)
    requires !f.retryable || f.attempts >= limit
    ensures !Due(f, limit) && !Resolves(f, limit, answers) && Bumped(f, limit, answers) == f
  {
  }

  /** What the pass decides about one retryable item. */
  lemma Decided(f: Failure, limit: int, answers: FailureKey -> Answer)
    requires f.retryable && f.attempts < limit
    ensures var answer := answers(KeyOfFailure(f));
            && Due(f, limit)
            && (Resolves(f, limit, answers) <==> Strip(f.symbol) != "" && answer.Fetched?)
            && (!Resolves(f, limit, answers) ==>
                  Bumped(f, limit, answers)
                  == f.(error := if Strip(f.symbol) != "" then answer.kind else f.error,
                        attempts := f.attempts + 1, retryable := f.attempts + 1 < limit))
  {
    hide Strip;
  }

  lemma KindsApart(kept: seq<Failure>, q: Queue)
    requires ListsItems(kept, q, NotRetryable)
    ensures forall f :: f in kept ==> !Retryable(f)
  {
  }

  lemma EverythingCovered(done: Queue, q: Queue, kept: seq<Failure>, queued: seq<Failure>)
    requires Covers(done, q, kept + queued) && ListsItems(kept, q, NotRetryable) && ListsItems(queued, q, Retryable)
    ensures done == q
  {
    forall k | k in q
      ensures k in done
    {
      if q[k].retryable {
        assert Retryable(q[k]) && q[k] in queued;
      } else {
        assert NotRetryable(q[k]) && q[k] in kept;
      }
    }
  }

  lemma AllCollectable(q: Queue, queued: seq<Failure>, limit: int)
    requires ListsItems(queued, q, Retryable)
    requires forall i :: 0 <= i < |queued| && Due(queued[i], limit) ==> Collectable(queued[i])
    ensures forall k :: k in q && Due(q[k], limit) ==> Collectable(q[k])
  {
    forall k | k in q && Due(q[k], limit)
      ensures Collectable(q[k])
    {
      assert Retryable(q[k]) && q[k] in queued;
    }
  }

  lemma NotCollectable(q: Queue, queued: seq<Failure>, i: nat, limit: int)
    requires ListsItems(queued, q, Retryable) && i < |queued|
    requires Due(queued[i], limit) && !Collectable(queued[i])
    ensures !(forall k :: k in q && Due(q[k], limit) ==> Collectable(q[k]))
  {
    assert KeyOfFailure(queued[i]) in q;
  }

  lemma PassMeans(q: Queue, limit: int, answers: FailureKey -> Answer, remaining: Queue, attempted: nat, resolved: nat)
    requires PassState(q, limit, answers, remaining, attempted, resolved)
    ensures remaining == AfterPass(q, limit, answers)
    ensures attempted == |DueKeys(q, limit)| && resolved == |ResolvedKeys(q, limit, answers)|
    ensures |remaining| == |q| - resolved
  {
    assert remaining.Keys == q.Keys - ResolvedKeys(q, limit, answers);
    assert ResolvedKeys(q, limit, answers) <= q.Keys;
  }

  /** The fetched rows, one item after the other. */
  function RowsFor(order: seq<FailureKey>, answers: FailureKey -> Answer): (r: seq<Record>) {
    if order == [] then [] else RowsFor(order[..|order| - 1], answers) + RowsIn(answers(order[|order| - 1]))
  }

  ghost predicate OrdersResolved(order: seq<FailureKey>, done: Queue, limit: int, answers: FailureKey -> Answer) {
    && (forall i, j :: 0 <= i < j < |order| ==> order[i] != order[j])
    && (forall k :: k in order <==> k in done && Resolves(done[k], limit, answers))
  }

  /** The rows fetched are those of the items resolved, each item's once. */
  ghost predicate RowsOfResolved(rows: seq<Record>, done: Queue, limit: int, answers: FailureKey -> Answer) {
    exists order :: OrdersResolved(order, done, limit, answers) && rows == RowsFor(order, answers)
  }

  lemma RowsOneMore(rows: seq<Record>, done: Queue, limit: int, answers: FailureKey -> Answer, f: Failure)
    requires RowsOfResolved(rows, done, limit, answers) && KeyOfFailure(f) !in done
    ensures RowsOfResolved(rows + (if Resolves(f, limit, answers) then RowsIn(answers(KeyOfFailure(f))) else []),
                           done[KeyOfFailure(f) := f], limit, answers)
  {
    hide Resolves, KeyOfFailure, RowsFor, OrdersResolved;
    var order :| OrdersResolved(order, done, limit, answers) && rows == RowsFor(order, answers);
    OrderOneMore(order, done, limit, answers, f);
    RowsForOneMore(order, answers, KeyOfFailure(f));
    assert rows + [] == rows;
  }

  lemma OrderOneMore(order: seq<FailureKey>, done: Queue, limit: int, answers: FailureKey -> Answer, f: Failure)
    requires OrdersResolved(order, done, limit, answers) && KeyOfFailure(f) !in done
    ensures OrdersResolved(if Resolves(f, limit, answers) then order + [KeyOfFailure(f)] else order,
                           done[KeyOfFailure(f) := f], limit, answers)
  {
    hide Resolves, KeyOfFailure;
  }

  lemma RowsForOneMore(order: seq<FailureKey>, answers: FailureKey -> Answer, k: FailureKey)
    ensures RowsFor(order + [k], answers) == RowsFor(order, answers) + RowsIn(answers(k))
  {
    assert (order + [k])[..|order|] == order;
  }

  class IngestionRetryService {
    const limit: int

    constructor (limit: int)
      requires 1 <= limit
      ensures this.limit == limit
    {
      this.limit := limit;
    }

    /**
     * `run` up to publication: one fetch for each due item whose symbol is not blank. It raises exactly when a due item
     * cannot be collected.
     */
    method Run(queue: FailureQueue, answers: FailureKey -> Answer)
      returns (r: Result<PassReport, CollectError>, remaining: FailureQueue, fetches: nat)
      requires ValidQueue(queue.items)
      ensures fresh(remaining)
      ensures r.Ok? <==> forall k :: k in queue.items && Due(queue.items[k], limit) ==> Collectable(queue.items[k])
      ensures r.Ok? ==>
                && remaining.items == AfterPass(queue.items, limit, answers)
                && r.value.attempted == |DueKeys(queue.items, limit)|
                && r.value.resolved == |ResolvedKeys(queue.items, limit, answers)|
                && r.value.remaining == |remaining.items| == |queue.items| - r.value.resolved
                && fetches <= r.value.attempted
                && RowsOfResolved(r.value.rows, queue.items, limit, answers)
    {
      hide PassState, ListsItems, Covers, Strip, Due, Resolves, Bumped, RowsOfResolved;
      remaining := new FailureQueue();
      var kept := KeepSettled(queue, remaining, answers);
      var queued := queue.Select(Retryable);
      KindsApart(kept, queue.items);
      var report, refused;
      report, refused, fetches := RetryQueued(queue, remaining, kept, queued, answers);
      if refused.Some? {
        return Err(refused.value), remaining, fetches;
      }
      PassMeans(queue.items, limit, answers, remaining.items, report.attempted, report.resolved);
      r := Ok(report);
    }

    /** What is not retryable stays as it is. */
    method KeepSettled(queue: FailureQueue, remaining: FailureQueue, ghost answers: FailureKey -> Answer)
      returns (kept: seq<Failure>)
      requires ValidQueue(queue.items) && remaining != queue && remaining.items == map[]
      modifies remaining
      ensures ListsItems(kept, queue.items, NotRetryable)
      ensures exists done: Queue ::
                && PassState(done, limit, answers, remaining.items, 0, 0) && Covers(done, queue.items, kept)
                && RowsOfResolved([], done, limit, answers)
    {
      hide PassState, ListsItems, Covers, Strip, Due, Resolves, Bumped, RowsOfResolved;
      ghost var q := queue.items;
      kept := queue.Select(NotRetryable);
      ghost var done: Queue := map[];
      ghost var none: seq<Record> := [];
      NothingPassed(limit, answers);
      NothingCovered(q, kept);
      NoRowsYet(limit, answers);
      for i := 0 to |kept|
        invariant PassState(done, limit, answers, remaining.items, 0, 0) && Covers(done, q, [] + kept[..i])
        invariant RowsOfResolved([], done, limit, answers)
        invariant queue.items == q
      {
        CoversOneMore(done, q, kept, NotRetryable, [], i);
        NotYetIn(done, limit, answers, remaining.items, 0, 0, KeyOfFailure(kept[i]));
        PassOneMore(done, limit, answers, remaining.items, 0, 0, kept[i]);
        RowsOneMore([], done, limit, answers, kept[i]);
        NotDue(kept[i], limit, answers);
        assert none + [] == none;
        remaining.Add(kept[i]);
        done := done[KeyOfFailure(kept[i]) := kept[i]];
      }
      assert [] + kept[..|kept|] == kept;
    }

    /** The loop over the retryable items. */
    method RetryQueued(
      queue: FailureQueue, remaining: FailureQueue, ghost kept: seq<Failure>, queued: seq<Failure>,
      answers: FailureKey -> Answer)
      returns (report: PassReport, refused: Option<CollectError>, fetches: nat)
      requires ValidQueue(queue.items) && remaining != queue
      requires ListsItems(kept, queue.items, NotRetryable) && ListsItems(queued, queue.items, Retryable)
      requires forall f :: f in kept ==> !Retryable(f)
      requires exists done: Queue ::
                 && PassState(done, limit, answers, remaining.items, 0, 0) && Covers(done, queue.items, kept)
                 && RowsOfResolved([], done, limit, answers)
      modifies remaining
      ensures refused.None? <==> forall k :: k in queue.items && Due(queue.items[k], limit) ==>
                Collectable(queue.items[k])
      ensures refused.None? ==>
                && PassState(queue.items, limit, answers, remaining.items, report.attempted, report.resolved)
                && RowsOfResolved(report.rows, queue.items, limit, answers)
                && report.remaining == |remaining.items| && fetches <= report.attempted
    {
      hide PassState, ListsItems, Covers, Strip, Due, Resolves, Bumped, RowsOfResolved, Collectable;
      ghost var q := queue.items;
      var attempted, resolved := 0, 0;
      var rows: seq<Record> := [];
      report, refused, fetches := PassReport(0, 0, 0, []), None, 0;
      ghost var done: Queue :|
        && PassState(done, limit, answers, remaining.items, 0, 0) && Covers(done, q, kept)
        && RowsOfResolved([], done, limit, answers);
      assert kept + queued[..0] == kept;
      for i := 0 to |queued|
        invariant PassState(done, limit, answers, remaining.items, attempted, resolved)
                  && Covers(done, q, kept + queued[..i])
        invariant RowsOfResolved(rows, done, limit, answers)
        invariant queue.items == q && fetches <= attempted && refused.None?
        invariant forall k :: 0 <= k < i && Due(queued[k], limit) ==> Collectable(queued[k])
      {
        var f := queued[i];
        CoversOneMore(done, q, queued, Retryable, kept, i);
        NotYetIn(done, limit, answers, remaining.items, attempted, resolved, KeyOfFailure(f));
        PassOneMore(done, limit, answers, remaining.items, attempted, resolved, f);
        RowsOneMore(rows, done, limit, answers, f);
        done := done[KeyOfFailure(f) := f];
        if f.attempts >= limit {
          NotDue(f, limit, answers);
          assert rows + [] == rows;
          remaining.Add(f);
          continue;
        }
        Decided(f, limit, answers);
        attempted := attempted + 1;
        if !Collectable(f) {
          NotCollectable(q, queued, i, limit);
          refused := Some(if f.start > f.end then BadRange else MissingMarket);
          return;
        }
        var answer := answers(KeyOfFailure(f));
        if Strip(f.symbol) != "" {
          fetches := fetches + 1;
        }
        if Strip(f.symbol) != "" && answer.Fetched? {
          resolved := resolved + 1;
          rows := rows + answer.rows;
        } else {
          assert rows + [] == rows;
          var error := if Strip(f.symbol) != "" then answer.kind else f.error;
          remaining.Add(f.(error := error, attempts := f.attempts + 1, retryable := f.attempts + 1 < limit));
        }
      }
      assert queued[..|queued|] == queued;
      EverythingCovered(done, q, kept, queued);
      AllCollectable(q, queued, limit);
      report := PassReport(attempted, resolved, |remaining.items|, rows);
    }
  }

  lemma NoRowsYet(limit: int, answers: FailureKey -> Answer)
    ensures RowsOfResolved([], map[], limit, answers)
  {
    assert OrdersResolved([], map[], limit, answers);
  }

  // ----- Repeated passes

  function Left(f: Failure, limit: int): (r: nat) {
    if Due(f, limit) then limit - f.attempts else 0
  }

  ghost function Lefts(q: Queue, limit: int): (r: map<FailureKey, real>) {
    map k | k in q :: Left(q[k], limit) as real
  }

  /** Remaining attempts over all retryable items. */
  ghost function AttemptsLeft(q: Queue, limit: int): (r: real) {
    Total(Lefts(q, limit))
  }

  lemma LeftDrops(f: Failure, limit: int, answers: FailureKey -> Answer)
    ensures Due(f, limit) ==> Left(Bumped(f, limit, answers), limit) == Left(f, limit) - 1 && 1 <= Left(f, limit)
    ensures !Due(f, limit) ==> Left(Bumped(f, limit, answers), limit) == Left(f, limit) == 0
  {
  }

  /** Each pass uses up at least one remaining attempt for every fetch it may make. */
  lemma {:induction false} PassUsesAttempts(q: Queue, limit: int, answers: FailureKey -> Answer)
    ensures AttemptsLeft(AfterPass(q, limit, answers), limit) + |DueKeys(q, limit)| as real <= AttemptsLeft(q, limit)
    decreases |q|
  {
    hide Bumped, Left, Resolves, Due;
    if q == map[] {
      assert AfterPass(q, limit, answers) == map[] && DueKeys(q, limit) == {};
      assert Lefts(map[], limit) == map[];
    } else {
      var k :| k in q;
      var f, rest := q[k], q - {k};
      RemoveShrinks(q, k);
      PassUsesAttempts(rest, limit, answers);
      TotalWithout(Lefts(q, limit), k);
      assert Lefts(q, limit) - {k} == Lefts(rest, limit);
      DueWithout(q, limit, k);
      AfterWithout(q, limit, answers, k);
      LeftDrops(f, limit, answers);
      OnlyDueResolves(f, limit, answers);
    }
  }

  lemma OnlyDueResolves(f: Failure, limit: int, answers: FailureKey -> Answer)
    ensures Resolves(f, limit, answers) ==> Due(f, limit)
  {
  }

  lemma DueWithout(q: Queue, limit: int, k: FailureKey)
    requires k in q
    ensures |DueKeys(q, limit)| == |DueKeys(q - {k}, limit)| + (if Due(q[k], limit) then 1 else 0)
  {
    hide Due;
    assert DueKeys(q, limit) == if Due(q[k], limit) then DueKeys(q - {k}, limit) + {k} else DueKeys(q - {k}, limit);
  }

  lemma AfterWithout(q: Queue, limit: int, answers: FailureKey -> Answer, k: FailureKey)
    requires k in q
    ensures AttemptsLeft(AfterPass(q, limit, answers), limit) ==
            AttemptsLeft(AfterPass(q - {k}, limit, answers), limit)
            + (if Resolves(q[k], limit, answers) then 0.0 else Left(Bumped(q[k], limit, answers), limit) as real)
  {
    hide Resolves, Bumped, Left;
    var after, rest := AfterPass(q, limit, answers), AfterPass(q - {k}, limit, answers);
    assert after - {k} == rest;
    assert Lefts(after, limit) - {k} == Lefts(rest, limit);
    if Resolves(q[k], limit, answers) {
      assert after == rest;
    } else {
      TotalWithout(Lefts(after, limit), k);
    }
  }

  /** The queue after passes against an arbitrary provider: the answers of each pass are unconstrained. */
  function AfterPasses(q: Queue, limit: int, passes: seq<FailureKey -> Answer>): (r: Queue)
    decreases |passes|
  {
    if passes == [] then q else AfterPasses(AfterPass(q, limit, passes[0]), limit, passes[1..])
  }

  function TotalAttempts(q: Queue, limit: int, passes: seq<FailureKey -> Answer>): (r: nat)
    decreases |passes|
  {
    if passes == [] then 0 else |DueKeys(q, limit)| + TotalAttempts(AfterPass(q, limit, passes[0]), limit, passes[1..])
  }

  /** Passes that attempt anything. */
  function ActivePasses(q: Queue, limit: int, passes: seq<FailureKey -> Answer>): (r: nat)
    decreases |passes|
  {
    if passes == [] then 0
    else (if DueKeys(q, limit) != {} then 1 else 0) + ActivePasses(AfterPass(q, limit, passes[0]), limit, passes[1..])
  }

  /** Whatever the provider does, all passes together attempt no more than the attempts left at the start. */
  lemma {:induction false} AttemptsBounded(q: Queue, limit: int, passes: seq<FailureKey -> Answer>)
    ensures TotalAttempts(q, limit, passes) as real + AttemptsLeft(AfterPasses(q, limit, passes), limit)
            <= AttemptsLeft(q, limit)
    ensures ActivePasses(q, limit, passes) <= TotalAttempts(q, limit, passes)
    ensures AfterPasses(q, limit, passes).Keys <= q.Keys
    decreases |passes|
  {
    hide AfterPass, AttemptsLeft;
    if passes != [] {
      PassUsesAttempts(q, limit, passes[0]);
      PassKeys(q, limit, passes[0]);
      AttemptsBounded(AfterPass(q, limit, passes[0]), limit, passes[1..]);
      assert DueKeys(q, limit) != {} ==> |DueKeys(q, limit)| >= 1;
    }
  }

  lemma PassKeys(q: Queue, limit: int, answers: FailureKey -> Answer)
    ensures AfterPass(q, limit, answers).Keys <= q.Keys
    ensures forall k :: k in q && !q[k].retryable ==>
              k in AfterPass(q, limit, answers) && AfterPass(q, limit, answers)[k] == q[k]
  {
  }

  /** So of any run of passes longer than the attempts left, some pass attempts nothing. */
  lemma SomePassIsIdle(q: Queue, limit: int, passes: seq<FailureKey -> Answer>)
    requires |passes| as real > AttemptsLeft(q, limit)
    ensures ActivePasses(q, limit, passes) < |passes|
    ensures exists n :: 0 <= n < |passes| && DueKeys(AfterPasses(q, limit, passes[..n]), limit) == {}
  {
    hide AttemptsLeft;
    AttemptsBounded(q, limit, passes);
    SomeIdle(q, limit, passes);
    LeftNonNegative(AfterPasses(q, limit, passes), limit);
  }

  lemma {:induction false} LeftNonNegative(q: Queue, limit: int)
    ensures 0.0 <= AttemptsLeft(q, limit)
    decreases |q|
  {
    hide Left;
    if q == map[] {
      assert Lefts(q, limit) == map[];
    } else {
      var k :| k in q;
      RemoveShrinks(q, k);
      LeftNonNegative(q - {k}, limit);
      TotalWithout(Lefts(q, limit), k);
      assert Lefts(q, limit) - {k} == Lefts(q - {k}, limit);
    }
  }

  lemma {:induction false} SomeIdle(q: Queue, limit: int, passes: seq<FailureKey -> Answer>)
    ensures ActivePasses(q, limit, passes) < |passes| ==>
              exists n :: 0 <= n < |passes| && DueKeys(AfterPasses(q, limit, passes[..n]), limit) == {}
    decreases |passes|
  {
    hide AfterPass, DueKeys;
    if ActivePasses(q, limit, passes) < |passes| {
      if DueKeys(q, limit) == {} {
        assert passes[..0] == [];
        assert DueKeys(AfterPasses(q, limit, passes[..0]), limit) == {};
      } else {
        SomeIdle(AfterPass(q, limit, passes[0]), limit, passes[1..]);
        var n :| 0 <= n < |passes[1..]|
          && DueKeys(AfterPasses(AfterPass(q, limit, passes[0]), limit, passes[1..][..n]), limit) == {};
        assert passes[..n + 1][1..] == passes[1..][..n] && passes[..n + 1][0] == passes[0];
        assert DueKeys(AfterPasses(q, limit, passes[..n + 1]), limit) == {};
      }
    }
  }

  /** A pass leaves the queue as it is exactly when it attempts nothing; what is then left may still be retryable. */
  lemma FixedPoint(q: Queue, limit: int, answers: FailureKey -> Answer)
    ensures AfterPass(q, limit, answers) == q <==> DueKeys(q, limit) == {}
    ensures DueKeys(q, limit) == {} <==> forall k :: k in q ==> !q[k].retryable || q[k].attempts >= limit
  {
    hide Strip;
    if DueKeys(q, limit) == {} {
      forall k | k in q
        ensures !Due(q[k], limit) && Bumped(q[k], limit, answers) == q[k]
      {
        assert k !in DueKeys(q, limit);
      }
    } else {
      var k :| k in DueKeys(q, limit);
      PassTouches(q, limit, answers, k);
    }
  }

  lemma PassTouches(q: Queue, limit: int, answers: FailureKey -> Answer, k: FailureKey)
    requires k in q && Due(q[k], limit)
    ensures AfterPass(q, limit, answers) != q
  {
    if Resolves(q[k], limit, answers) {
      assert k !in AfterPass(q, limit, answers);
    } else {
      assert AfterPass(q, limit, answers)[k].attempts == q[k].attempts + 1;
    }
  }

  /** Retryable items that have used up their attempts. */
  function AtLimit(q: Queue, limit: int): (keys: set<FailureKey>) {
    set k | k in q && q[k].retryable && q[k].attempts >= limit
  }

  /**
   * An item that enters the queue at the limit stays retryable for ever and is never tried, and no pass makes another.
   */
  lemma {:induction false} StuckAtTheLimit(q: Queue, limit: int, passes: seq<FailureKey -> Answer>)
    ensures var end := AfterPasses(q, limit, passes);
            AtLimit(end, limit) == AtLimit(q, limit) && forall k :: k in AtLimit(q, limit) ==> end[k] == q[k]
    decreases |passes|
  {
    if passes != [] {
      AtLimitKept(q, limit, passes[0]);
      hide AfterPass, AtLimit;
      StuckAtTheLimit(AfterPass(q, limit, passes[0]), limit, passes[1..]);
    }
  }

  lemma AtLimitKept(q: Queue, limit: int, answers: FailureKey -> Answer)
    ensures var after := AfterPass(q, limit, answers);
            AtLimit(after, limit) == AtLimit(q, limit) && forall k :: k in AtLimit(q, limit) ==> after[k] == q[k]
  {
    hide Strip;
  }

  /**
   * When a run of passes has nothing left to try, something is still retryable if and only if it came in at the limit.
   */
  lemma RetryableInTheEnd(q: Queue, limit: int, passes: seq<FailureKey -> Answer>)
    requires DueKeys(AfterPasses(q, limit, passes), limit) == {}
    ensures var end := AfterPasses(q, limit, passes);
            (exists k :: k in end && end[k].retryable)
              <==> exists k :: k in q && q[k].retryable && q[k].attempts >= limit
  {
    hide AfterPasses;
    var end := AfterPasses(q, limit, passes);
    StuckAtTheLimit(q, limit, passes);
    if k :| k in end && end[k].retryable {
      assert k !in DueKeys(end, limit);
      assert k in AtLimit(end, limit);
    }
    if k :| k in q && q[k].retryable && q[k].attempts >= limit {
      assert k in AtLimit(q, limit);
      assert k in AtLimit(end, limit);
    }
  }
}
