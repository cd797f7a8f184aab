/** What collecting and a retry pass make of each symbol and each item (`market_ingestion.py`, `ingestion_retry.py`). */
module RetryTerms {
  import opened Base
  import opened Sorting
  import opened DataLake
  import opened Retry

  // ----- Collecting

  /** Try `n` is the first that the provider answers with these rows. */
  predicate FirstAnswer(answers: (string, nat) -> Answer, symbol: string, tries: nat, n: nat, rows: seq<Record>) {
    && 1 <= n <= tries && answers(symbol, n) == Fetched(rows)
    && forall k :: 1 <= k < n ==> answers(symbol, k).Raised?
  }

  lemma FirstAnswerExactly(answers: (string, nat) -> Answer, symbol: string, tries: nat, n: nat, rows: seq<Record>)
    ensures FirstAnswer(answers, symbol, tries, n, rows) <==>
            && Succeeds(answers, symbol, tries) && n == FirstSuccess(answers, symbol, 1, tries)
            && answers(symbol, n).Fetched? && rows == answers(symbol, n).rows
  {
    var first := FirstSuccess(answers, symbol, 1, tries);
    if FirstAnswer(answers, symbol, tries, n, rows) {
      assert answers(symbol, n).Fetched?;
    }
  }

  /** The row comes with the first answer about one of the symbols. */
  ghost predicate Brings(answers: (string, nat) -> Answer, symbols: seq<string>, tries: nat, r: Record) {
    exists s, n, rows :: s in symbols && FirstAnswer(answers, s, tries, n, rows) && r in rows
  }

  /**
   * The rows collected are those of the first answers, and each failure tells the last exception and the tries spent.
   */
  lemma {:induction false} CollectedExactly(answers: (string, nat) -> Answer, symbols: seq<string>, tries: nat)
    requires 1 <= tries
    ensures forall r :: r in CollectedRows(answers, symbols, tries) <==> Brings(answers, symbols, tries, r)
    ensures forall f :: f in CollectedFailures(answers, symbols, tries) ==>
              && f.symbol in symbols && f.attempts == tries
              && answers(f.symbol, tries) == Raised(f.error)
  {
    hide FirstSuccess, FirstAnswer, Succeeds;
    if symbols != [] {
      var n := |symbols| - 1;
      CollectedExactly(answers, symbols[..n], tries);
      assert symbols == symbols[..n] + [symbols[n]];
      forall r
        ensures Brings(answers, symbols, tries, r) <==>
                || Brings(answers, symbols[..n], tries, r)
                || (Succeeds(answers, symbols[n], tries)
                    && var k := FirstSuccess(answers, symbols[n], 1, tries);
                       answers(symbols[n], k).Fetched? && r in answers(symbols[n], k).rows)
      {
        BringsOneMore(answers, symbols, tries, r);
      }
      LastTry(answers, symbols[n], tries);
    }
  }

  lemma BringsOneMore(answers: (string, nat) -> Answer, symbols: seq<string>, tries: nat, r: Record)
    requires symbols != []
    ensures var last := symbols[|symbols| - 1];
            Brings(answers, symbols, tries, r) <==>
            || Brings(answers, symbols[..|symbols| - 1], tries, r)
            || (Succeeds(answers, last, tries)
                && var k := FirstSuccess(answers, last, 1, tries);
                   answers(last, k).Fetched? && r in answers(last, k).rows)
  {
    hide FirstSuccess, FirstAnswer, Succeeds;
    var before, last := symbols[..|symbols| - 1], symbols[|symbols| - 1];
    assert symbols == before + [last];
    var k := FirstSuccess(answers, last, 1, tries);
    if Succeeds(answers, last, tries) && answers(last, k).Fetched? && r in answers(last, k).rows {
      FirstAnswerExactly(answers, last, tries, k, answers(last, k).rows);
    }
    if s, n, rows :| s in symbols && FirstAnswer(answers, s, tries, n, rows) && r in rows {
      FirstAnswerExactly(answers, s, tries, n, rows);
    }
  }

  lemma LastTry(answers: (string, nat) -> Answer, symbol: string, tries: nat)
    requires 1 <= tries
    ensures !Succeeds(answers, symbol, tries) ==> answers(symbol, tries) == Raised(KindOf(answers(symbol, tries)))
    ensures Succeeds(answers, symbol, tries) ==> answers(symbol, FirstSuccess(answers, symbol, 1, tries)).Fetched?
  {
  }

  /** One symbol costs the fetches up to the first answer, or all the tries. */
  lemma FetchesExactly(answers: (string, nat) -> Answer, symbols: seq<string>, symbol: string, tries: nat, n: nat)
    requires 1 <= tries
    requires (exists rows :: FirstAnswer(answers, symbol, tries, n, rows))
             || (n == tries && forall k :: 1 <= k <= tries ==> answers(symbol, k).Raised?)
    ensures FetchCount(answers, symbols + [symbol], tries) == FetchCount(answers, symbols, tries) + n
  {
    assert (symbols + [symbol])[..|symbols|] == symbols;
    if rows :| FirstAnswer(answers, symbol, tries, n, rows) {
      FirstAnswerExactly(answers, symbol, tries, n, rows);
    } else {
      SucceedsMeans(answers, symbol, tries);
    }
  }

  // ----- One pass

  /** The item may be tried again. */
  predicate MayRetry(f: Failure, limit: int) {
    f.retryable && f.attempts < limit
  }

  function AnswerTo(f: Failure, answers: FailureKey -> Answer): (answer: Answer) {
    answers(FailureKey(f.market, f.symbol, f.start, f.end))
  }

  /** It may be, and the provider answers with rows; a blank symbol is never asked for. */
  predicate IsResolved(f: Failure, limit: int, answers: FailureKey -> Answer) {
    MayRetry(f, limit) && Strip(f.symbol) != "" && AnswerTo(f, answers).Fetched?
  }

  /** One attempt more, retryable while some are left, and the exception if there was one. */
  predicate TriedOnceMore(f: Failure, limit: int, answers: FailureKey -> Answer, now: Failure) {
    && now == f.(attempts := f.attempts + 1, retryable := now.retryable, error := now.error)
    && (now.retryable <==> f.attempts + 1 < limit)
    && now.error == if Strip(f.symbol) == "" || AnswerTo(f, answers).Fetched? then f.error
                    else AnswerTo(f, answers).kind
  }

  /**
   * After a pass an item is gone if it was resolved, has one attempt more if it could be tried, and is as it was
   * otherwise; nothing else is in the queue. The attempts counted are the items that could be tried, and the rows those
   * of the answers.
   */
  lemma PassExactly(q: Queue, limit: int, answers: FailureKey -> Answer, rows: seq<Record>)
    requires ValidQueue(q) && RowsOfResolved(rows, q, limit, answers)
    ensures forall k :: k in q ==> k == FailureKey(q[k].market, q[k].symbol, q[k].start, q[k].end)
    ensures var after := AfterPass(q, limit, answers);
            && (forall k :: k in after <==> k in q && !IsResolved(q[k], limit, answers))
            && (forall k :: k in after ==>
                  if MayRetry(q[k], limit) then TriedOnceMore(q[k], limit, answers, after[k]) else after[k] == q[k])
    ensures DueKeys(q, limit) == (set k | k in q && MayRetry(q[k], limit))
    ensures ResolvedKeys(q, limit, answers) == (set k | k in q && IsResolved(q[k], limit, answers))
    ensures forall r :: r in rows <==>
              exists k :: k in q && IsResolved(q[k], limit, answers) && r in AnswerTo(q[k], answers).rows
  {
    hide Strip;
    var order :| OrdersResolved(order, q, limit, answers) && rows == RowsFor(order, answers);
    assert forall k :: k in order ==> answers(k).Fetched?;
    RowsForExactly(order, answers);
    hide RowsFor;
    forall r
      ensures r in rows <==>
              exists k :: k in q && IsResolved(q[k], limit, answers) && r in AnswerTo(q[k], answers).rows
    {
      if r in rows {
        var k :| k in order && r in answers(k).rows;
        assert IsResolved(q[k], limit, answers) && r in AnswerTo(q[k], answers).rows;
      }
      if k :| k in q && IsResolved(q[k], limit, answers) && r in AnswerTo(q[k], answers).rows {
        assert k in order && r in answers(k).rows;
      }
    }
  }

  /** A pass raises exactly when an item that may be tried has a reversed range or no market. */
  lemma PassRaisesExactly(q: Queue, limit: int)
    ensures (forall k :: k in q && Due(q[k], limit) ==> Collectable(q[k])) <==>
            forall k :: k in q && MayRetry(q[k], limit) ==> q[k].start <= q[k].end && Strip(q[k].market) != ""
  {
    hide Strip;
  }

  lemma {:induction false} RowsForExactly(order: seq<FailureKey>, answers: FailureKey -> Answer)
    requires forall k :: k in order ==> answers(k).Fetched?
    ensures forall r :: r in RowsFor(order, answers) <==> exists k :: k in order && r in answers(k).rows
  {
    if order != [] {
      var n := |order| - 1;
      assert order == order[..n] + [order[n]];
      RowsForExactly(order[..n], answers);
    }
  }

  // ----- The order of the queue

  /** By market, symbol, start and end. */
  predicate InQueueOrder(a: Failure, b: Failure) {
    if a.market != b.market then StringLe(a.market, b.market)
    else if a.symbol != b.symbol then StringLe(a.symbol, b.symbol)
    else a.start < b.start || (a.start == b.start && a.end <= b.end)
  }

  /** Items are listed in this order. */
  lemma ListedInOrder(found: seq<Failure>)
    requires found == Sort(found, FailureLe)
    ensures forall i, j :: 0 <= i < j < |found| ==> InQueueOrder(found[i], found[j])
  {
    FailureLeIsPreorder();
    SortSorts(found, FailureLe);
    hide Sort;
    forall i, j | 0 <= i < j < |found|
      ensures InQueueOrder(found[i], found[j])
    {
      assert FailureLe(found[i], found[j]);
    }
  }
}
