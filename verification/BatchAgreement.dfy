/** Account and ledger during a batch of recommended rows (`paper_execution.py`). */
module BatchAgreement {
  import opened Base
  import opened Orders
  import opened Execution
  import opened Equity
  import opened Risk
  import opened ContextBuilder
  import opened TradeFacade
  import opened Ledger
  import opened TradingPipeline
  import opened PaperBatch
  import opened Exposure
  import opened Sizing

  // ----- One submission

  /** The order a row is submitted as on the paper path, if it is submitted at all. */
  ghost function Called(s: Session, a: Account, row: Row, id: string): (o: Option<Order>) {
    var r := Revalidated(s.gate, a, row, s.prices, s.markets, s.orderType, s.lot);
    if s.mode != RealLive && r.Ok? && r.value.intent.Some? && r.value.verdict == Approved
    then Some(OrderFor(r.value.intent.value, id)) else None
  }

  function PriceOf(s: Session, o: Order): (price: real) {
    GetOr(s.prices, o.symbol, 0.0)
  }

  /** The gateway answers the row from the record of a finished order of that id. */
  ghost predicate Echoes(s: Session, d: Desk, row: Row, id: string) {
    var o := Called(s, d.account, row, id);
    o.Some? && Admit(s.mode, d, o.value, PriceOf(s, o.value)).Settled?
  }

  /** A row is not submitted, or echoed, or its reply reports exactly what the account traded. */
  lemma SubmissionShape(s: Session, d: Desk, row: Row, id: string)
    requires ValidStore(d.orders)
    ensures var (after, submission) :=
              SubmittedRow(s.rates, s.gate, s.mode, d, row, s.prices, s.markets, s.orderType, s.lot, id);
            var o := Called(s, d.account, row, id);
            && ValidStore(after.orders) && after.orders.Keys <= d.orders.Keys + {id}
            && (o.None? ==> after == d && !submission.Sent?)
            && (o.Some? ==>
                  && submission.Sent? && 0.0 < PriceOf(s, o.value) && o.value.symbol == Strip(row.symbol)
                  && (Echoes(s, d, row, id) ==>
                        after == d && submission.result == Ok(Admit(s.mode, d, o.value, PriceOf(s, o.value)).fill))
                  && (!Echoes(s, d, row, id) ==>
                        ReportsTrade(s.rates, d.account, after.account, o.value, PriceOf(s, o.value),
                                     submission.result)))
  {
    hide Executed, Admit, ReportsTrade, ContextOf, PortfolioApproval, TargetQuantity, Strip;
    var o := Called(s, d.account, row, id);
    if o.Some? {
      GatewayExecution(s.rates, s.mode, d, o.value, PriceOf(s, o.value));
    }
  }

  // ----- One row

  /** The row is echoed, and the echo is booked as a fill. */
  ghost predicate BooksEcho(s: Session, b: Books, row: Row, id: string) {
    && Echoes(s, b.desk, row, id)
    && var o := Called(s, b.desk.account, row, id).value;
       var echo := Admit(s.mode, b.desk, o, PriceOf(s, o)).fill;
       && 0.0 < echo.quantity && echo.status in {Filled, PartiallyFilled}
       && (echo.side == Buy || echo.quantity <= PositionIn(b.ledger, echo.symbol).quantity)
  }

  lemma UnusedIsNoEcho(s: Session, d: Desk, row: Row, id: string)
    requires id !in d.orders
    ensures !Echoes(s, d, row, id)
  {
    hide Revalidated;
  }

  /**
   * Settling a recorded row that books no echo keeps account and ledger together, and their values within a cent of
   * each other.
   */
  lemma SettledTracks(s: Session, b: Books, row: Row, id: string, marks: Prices)
    requires 0.0 <= s.rates.slippageBps < 10000.0
    requires ValidStore(b.desk.orders) && ValidBook(b.ledger) && Agree(b.desk.account, b.ledger)
    requires !BooksEcho(s, b, row, id)
    ensures var (next, fill, stop) := RowSettled(s, b, row, id, true);
            && ValidStore(next.desk.orders) && Agree(next.desk.account, next.ledger)
            && next.desk.orders.Keys <= b.desk.orders.Keys + {id}
            && (fill.None? ==> next.desk.account == b.desk.account && next.ledger == b.ledger)
            && (fill.Some? ==>
                  -0.01 < Gap(next.desk.account, next.ledger, marks) - Gap(b.desk.account, b.ledger, marks)
                          + fill.value.fee + fill.value.tax < 0.01)
  {
    hide SubmittedRow, Called, Admit, Traded, Covered, Gap, ValidStore, FillPrice, Fee, Tax, PriceOf;
    SubmissionShape(s, b.desk, row, id);
    var o := Called(s, b.desk.account, row, id);
    var r := SubmittedRow(s.rates, s.gate, s.mode, b.desk, row, s.prices, s.markets, s.orderType, s.lot, id).1;
    if o.Some? && r.result.Ok? && 0.0 < r.result.value.quantity {
      if Echoes(s, b.desk, row, id) {
        EchoShape(s.mode, b.desk, o.value, PriceOf(s, o.value));
      } else {
        hide Applied;
        FillOnBoth(s.rates, b.desk.account, b.ledger, o.value.symbol, o.value.side, r.result.value.quantity,
                   PriceOf(s, o.value), marks);
      }
    }
  }

  /** A recorded row leaves account and ledger in agreement if and only if it books no echo. */
  lemma RecordedAgreement(s: Session, b: Books, row: Row, id: string)
    requires 0.0 <= s.rates.slippageBps < 10000.0
    requires ValidStore(b.desk.orders) && ValidBook(b.ledger) && Agree(b.desk.account, b.ledger)
    ensures var next := RowSettled(s, b, row, id, true).0;
            Agree(next.desk.account, next.ledger) <==> !BooksEcho(s, b, row, id)
  {
    if BooksEcho(s, b, row, id) {
      hide SubmittedRow, Called, Admit, AverageCost, PriceOf;
      SubmissionShape(s, b.desk, row, id);
      var o := Called(s, b.desk.account, row, id).value;
      EchoShape(s.mode, b.desk, o, PriceOf(s, o));
      var next := RowSettled(s, b, row, id, true).0;
      assert Held(b.desk.account, o.symbol) == PositionIn(b.ledger, o.symbol).quantity;
      assert Held(next.desk.account, o.symbol) != PositionIn(next.ledger, o.symbol).quantity;
    } else {
      hide RowSettled, BooksEcho;
      SettledTracks(s, b, row, id, map[]);
    }
  }

  /** Bought less sold of a symbol. */
  function SignedQuantity(f: Fill, symbol: string): (quantity: real) {
    if f.symbol != symbol then 0.0 else if f.side == Buy then f.quantity else -f.quantity
  }

  /** An unrecorded row that is not echoed moves each position by its fill, and the ledger not at all. */
  lemma UnrecordedMoves(s: Session, b: Books, row: Row, id: string, symbol: string)
    requires ValidStore(b.desk.orders) && ValidBook(b.ledger) && !Echoes(s, b.desk, row, id)
    ensures var (next, fill, stop) := RowSettled(s, b, row, id, false);
            && next.ledger == b.ledger && ValidStore(next.desk.orders)
            && next.desk.orders.Keys <= b.desk.orders.Keys + {id}
            && (fill.Some? ==> 0.0 < fill.value.quantity && fill.value.symbol == Strip(row.symbol))
            && Held(next.desk.account, symbol) - Held(b.desk.account, symbol)
               == if fill.None? then 0.0 else SignedQuantity(fill.value, symbol)
  {
    hide SubmittedRow, Called, Echoes, Covered, Traded, Fee, Tax, ValidStore, FillPrice, PriceOf, Strip, Held;
    SubmissionShape(s, b.desk, row, id);
    var o := Called(s, b.desk.account, row, id);
    var (next, fill, stop) := RowSettled(s, b, row, id, false);
    var (desk, submission) :=
      SubmittedRow(s.rates, s.gate, s.mode, b.desk, row, s.prices, s.markets, s.orderType, s.lot, id);
    assert next.desk == desk && (o.None? || fill.None? ==> desk.account == b.desk.account);
    if o.Some? && fill.Some? {
      TradedMoves(s.rates, b.desk.account, o.value, fill.value.quantity, PriceOf(s, o.value), symbol);
    }
  }

  lemma TradedMoves(c: Rates, a: Account, o: Order, quantity: real, price: real, symbol: string)
    ensures Held(Traded(c, a, o.symbol, o.side, quantity, price), symbol) - Held(a, symbol)
            == if o.symbol != symbol then 0.0 else if o.side == Buy then quantity else -quantity
  {
    hide Gross, Fee, Tax;
  }

  /**
   * A row without a submission on record leaves account and ledger in agreement if and only if it fills nothing, or its
   * fill is an echo.
   */
  lemma UnrecordedAgreement(s: Session, b: Books, row: Row, id: string)
    requires ValidStore(b.desk.orders) && ValidBook(b.ledger) && Agree(b.desk.account, b.ledger)
    ensures var (next, fill, stop) := RowSettled(s, b, row, id, false);
            Agree(next.desk.account, next.ledger) <==> fill.None? || Echoes(s, b.desk, row, id)
  {
    var (next, fill, stop) := RowSettled(s, b, row, id, false);
    if Echoes(s, b.desk, row, id) {
      hide SubmittedRow, Called, Admit, PriceOf;
      SubmissionShape(s, b.desk, row, id);
    } else {
      hide RowSettled, Echoes;
      forall symbol
        ensures Held(next.desk.account, symbol) - PositionIn(next.ledger, symbol).quantity
                == if fill.None? then 0.0 else SignedQuantity(fill.value, symbol)
      {
        UnrecordedMoves(s, b, row, id, symbol);
      }
      if fill.Some? {
        UnrecordedMoves(s, b, row, id, fill.value.symbol);
        assert Held(next.desk.account, fill.value.symbol) != PositionIn(next.ledger, fill.value.symbol).quantity;
      }
    }
  }

  // ----- A recorded batch

  function TotalCharges(fills: seq<Fill>): (total: real) {
    if fills == [] then 0.0
    else TotalCharges(fills[..|fills| - 1]) + fills[|fills| - 1].fee + fills[|fills| - 1].tax
  }

  lemma OneMoreCharge(fills: seq<Fill>, f: Fill)
    ensures TotalCharges(fills + [f]) == TotalCharges(fills) + f.fee + f.tax
  {
    assert (fills + [f])[..|fills|] == fills;
  }

  lemma NoCharges()
    ensures TotalCharges([]) == 0.0
  {
  }

  /** How far account equity less ledger P&L has moved since `b`, apart from the charges. */
  ghost function DriftSince(b: Books, p: Progress, marks: Prices): (drift: real) {
    Gap(p.books.desk.account, p.books.ledger, marks) - Gap(b.desk.account, b.ledger, marks) + TotalCharges(p.fills)
  }

  /** Less than a cent for each of `n` fills, and nothing without fills. */
  predicate WithinCents(drift: real, n: nat) {
    if n == 0 then drift == 0.0 else -0.01 * n as real < drift < 0.01 * n as real
  }

  lemma OneMoreCent(drift: real, n: nat, step: real)
    requires WithinCents(drift, n) && -0.01 < step < 0.01
    ensures WithinCents(drift + step, n + 1)
  {
  }

  /**
   * Ledger and account agree, and since `b` the account's equity has moved by the ledger's P&L less the charges to
   * within a cent per fill.
   */
  ghost predicate InStep(b: Books, p: Progress, marks: Prices) {
    && ValidStore(p.books.desk.orders) && ValidBook(p.books.ledger) && Agree(p.books.desk.account, p.books.ledger)
    && (p.fills == [] ==> p.books.desk.account == b.desk.account && p.books.ledger == b.ledger)
    && WithinCents(DriftSince(b, p, marks), |p.fills|)
  }

  /** The next row of a batch is submitted, and its echo is booked. */
  ghost predicate NextBooksEcho(s: Session, p: Progress, approved: Revalidation, bySymbol: map<string, Row>,
                                id: string) {
    && p.stop.None? && approved.intent.Some? && approved.intent.value.symbol in bySymbol
    && BooksEcho(s, p.books, bySymbol[approved.intent.value.symbol], id)
  }

  lemma ContinuedTracks(
    s: Session, b: Books, p: Progress, approved: Revalidation, bySymbol: map<string, Row>, id: string, marks: Prices)
    requires 0.0 <= s.rates.slippageBps < 10000.0
    requires InStep(b, p, marks) && !NextBooksEcho(s, p, approved, bySymbol, id)
    ensures var next := Continued(s, p, approved, bySymbol, id, true);
            && InStep(b, next, marks)
            && next.books.desk.orders.Keys <= p.books.desk.orders.Keys + {id}
            && |p.fills| <= |next.fills| <= |p.fills| + 1
  {
    hide RowSettled, BooksEcho, Gap, Agree, ValidStore, ValidBook, WithinCents, TotalCharges;
    if p.stop.None? && approved.intent.Some? && approved.intent.value.symbol in bySymbol {
      var row := bySymbol[approved.intent.value.symbol];
      SettledTracks(s, p.books, row, id, marks);
      var (books, fill, stop) := RowSettled(s, p.books, row, id, true);
      if fill.Some? {
        OneMoreCharge(p.fills, fill.value);
        OneMoreCent(DriftSince(b, p, marks), |p.fills|,
                    Gap(books.desk.account, books.ledger, marks) - Gap(p.books.desk.account, p.books.ledger, marks)
                    + fill.value.fee + fill.value.tax);
      }
    }
  }

  /** No row of the batch books an echo. */
  ghost predicate EchoFree(s: Session, b: Books, approved: seq<Revalidation>, bySymbol: map<string, Row>,
                           ids: seq<string>)
    requires ValidBook(b.ledger) && |approved| <= |ids|
  {
    approved != [] ==>
      var n := |approved| - 1;
      && EchoFree(s, b, approved[..n], bySymbol, ids)
      && !NextBooksEcho(s, Batch(s, b, approved[..n], bySymbol, ids, true), approved[n], bySymbol, ids[n])
  }

  /**
   * A recorded batch that books no echo, with slippage below 100%, keeps ledger and account in step, even when it stops
   * early.
   */
  lemma {:induction false} BatchTracks(
    s: Session, b: Books, approved: seq<Revalidation>, bySymbol: map<string, Row>, ids: seq<string>, marks: Prices)
    requires 0.0 <= s.rates.slippageBps < 10000.0 && |approved| <= |ids|
    requires ValidStore(b.desk.orders) && ValidBook(b.ledger) && Agree(b.desk.account, b.ledger)
    requires EchoFree(s, b, approved, bySymbol, ids)
    ensures var end := Batch(s, b, approved, bySymbol, ids, true);
            InStep(b, end, marks) && |end.fills| <= |approved|
  {
    hide Continued, NextBooksEcho, Gap, Agree, ValidStore;
    if approved != [] {
      var n := |approved| - 1;
      BatchTracks(s, b, approved[..n], bySymbol, ids, marks);
      hide InStep;
      ContinuedTracks(s, b, Batch(s, b, approved[..n], bySymbol, ids, true), approved[n], bySymbol, ids[n], marks);
    }
  }

  predicate Unused(orders: Store, ids: seq<string>) {
    && (forall i :: 0 <= i < |ids| ==> ids[i] !in orders)
    && (forall i, j :: 0 <= i < j < |ids| ==> ids[i] != ids[j])
  }

  /** Unused ids are enough. */
  lemma {:induction false} UnusedIsEchoFree(
    s: Session, b: Books, approved: seq<Revalidation>, bySymbol: map<string, Row>, ids: seq<string>)
    requires 0.0 <= s.rates.slippageBps < 10000.0 && |approved| <= |ids|
    requires ValidStore(b.desk.orders) && ValidBook(b.ledger) && Agree(b.desk.account, b.ledger)
    requires Unused(b.desk.orders, ids)
    ensures EchoFree(s, b, approved, bySymbol, ids)
    ensures forall j :: |approved| <= j < |ids| ==>
              ids[j] !in Batch(s, b, approved, bySymbol, ids, true).books.desk.orders
  {
    hide Continued, Echoes, Gap, Agree, ValidStore;
    if approved != [] {
      var n := |approved| - 1;
      UnusedIsEchoFree(s, b, approved[..n], bySymbol, ids);
      var before := Batch(s, b, approved[..n], bySymbol, ids, true);
      BatchTracks(s, b, approved[..n], bySymbol, ids, map[]);
      if approved[n].intent.Some? && approved[n].intent.value.symbol in bySymbol {
        UnusedIsNoEcho(s, before.books.desk, bySymbol[approved[n].intent.value.symbol], ids[n]);
      }
      hide InStep, EchoFree;
      ContinuedTracks(s, b, before, approved[n], bySymbol, ids[n], map[]);
    }
  }

  /** Account and ledger agree after every row of the batch. */
  ghost predicate AgreeAlong(s: Session, b: Books, approved: seq<Revalidation>, bySymbol: map<string, Row>,
                             ids: seq<string>)
    requires ValidBook(b.ledger) && |approved| <= |ids|
  {
    var now := Batch(s, b, approved, bySymbol, ids, true).books;
    Agree(now.desk.account, now.ledger)
      && (approved != [] ==> AgreeAlong(s, b, approved[..|approved| - 1], bySymbol, ids))
  }

  /** In a recorded batch account and ledger agree after every row if and only if no row books an echo. */
  lemma {:induction false} BatchCriterion(
    s: Session, b: Books, approved: seq<Revalidation>, bySymbol: map<string, Row>, ids: seq<string>)
    requires 0.0 <= s.rates.slippageBps < 10000.0 && |approved| <= |ids|
    requires ValidStore(b.desk.orders) && ValidBook(b.ledger) && Agree(b.desk.account, b.ledger)
    ensures AgreeAlong(s, b, approved, bySymbol, ids) <==> EchoFree(s, b, approved, bySymbol, ids)
  {
    hide RowSettled, BooksEcho, Agree, ValidStore, ValidBook;
    if approved != [] {
      var n := |approved| - 1;
      BatchCriterion(s, b, approved[..n], bySymbol, ids);
      if EchoFree(s, b, approved[..n], bySymbol, ids) {
        BatchTracks(s, b, approved[..n], bySymbol, ids, map[]);
        var before := Batch(s, b, approved[..n], bySymbol, ids, true);
        if before.stop.None? && approved[n].intent.Some? && approved[n].intent.value.symbol in bySymbol {
          RecordedAgreement(s, before.books, bySymbol[approved[n].intent.value.symbol], ids[n]);
        }
      }
    }
  }

  // ----- An unrecorded batch

  /** Bought less sold of a symbol over all fills. */
  function NetOf(fills: seq<Fill>, symbol: string): (quantity: real) {
    if fills == [] then 0.0 else NetOf(fills[..|fills| - 1], symbol) + SignedQuantity(fills[|fills| - 1], symbol)
  }

  lemma OneMoreFill(fills: seq<Fill>, f: Fill, symbol: string)
    ensures NetOf(fills + [f], symbol) == NetOf(fills, symbol) + SignedQuantity(f, symbol)
  {
    assert (fills + [f])[..|fills|] == fills;
  }

  /** What the next row of an unrecorded batch trades: its fill, unless it is echoed. */
  ghost function NewlyTraded(s: Session, p: Progress, approved: Revalidation, bySymbol: map<string, Row>, id: string)
    : (fill: Option<Fill>)
    requires ValidBook(p.books.ledger)
  {
    if p.stop.Some? || approved.intent.None? || approved.intent.value.symbol !in bySymbol then None
    else
      var row := bySymbol[approved.intent.value.symbol];
      if Echoes(s, p.books.desk, row, id) then None else RowSettled(s, p.books, row, id, false).1
  }

  /** The fills of an unrecorded batch that are not echoes. */
  ghost function TradedFills(s: Session, b: Books, approved: seq<Revalidation>, bySymbol: map<string, Row>,
                             ids: seq<string>)
    : (fills: seq<Fill>)
    requires ValidBook(b.ledger) && |approved| <= |ids|
  {
    if approved == [] then []
    else
      var n := |approved| - 1;
      var traded := NewlyTraded(s, Batch(s, b, approved[..n], bySymbol, ids, false), approved[n], bySymbol, ids[n]);
      TradedFills(s, b, approved[..n], bySymbol, ids) + (if traded.Some? then [traded.value] else [])
  }

  /** A row that is echoed moves nothing when it is not on record. */
  lemma UnrecordedEcho(s: Session, b: Books, row: Row, id: string)
    requires ValidStore(b.desk.orders) && ValidBook(b.ledger) && Echoes(s, b.desk, row, id)
    ensures RowSettled(s, b, row, id, false).0 == b
  {
    hide SubmittedRow, Called, Admit, PriceOf, ValidStore;
    SubmissionShape(s, b.desk, row, id);
  }

  lemma ContinuedMoves(
    s: Session, p: Progress, approved: Revalidation, bySymbol: map<string, Row>, id: string, symbol: string)
    requires ValidBook(p.books.ledger) && ValidStore(p.books.desk.orders)
    ensures var next := Continued(s, p, approved, bySymbol, id, false);
            var traded := NewlyTraded(s, p, approved, bySymbol, id);
            && next.books.ledger == p.books.ledger && ValidStore(next.books.desk.orders)
            && next.books.desk.orders.Keys <= p.books.desk.orders.Keys + {id}
            && Held(next.books.desk.account, symbol) - Held(p.books.desk.account, symbol)
               == (if traded.None? then 0.0 else SignedQuantity(traded.value, symbol))
            && (traded.Some? ==>
                  && 0.0 < traded.value.quantity && approved.intent.Some? && approved.intent.value.symbol in bySymbol
                  && traded.value.symbol == Strip(bySymbol[approved.intent.value.symbol].symbol))
            && (id !in p.books.desk.orders ==>
                  next.fills == p.fills + (if traded.Some? then [traded.value] else []))
  {
    hide RowSettled, Echoes, ValidStore, SignedQuantity, Held, Strip;
    if p.stop.None? && approved.intent.Some? && approved.intent.value.symbol in bySymbol {
      var row := bySymbol[approved.intent.value.symbol];
      if Echoes(s, p.books.desk, row, id) {
        UnrecordedEcho(s, p.books, row, id);
      } else {
        UnrecordedMoves(s, p.books, row, id, symbol);
      }
      if id !in p.books.desk.orders {
        UnusedIsNoEcho(s, p.books.desk, row, id);
      }
    }
  }

  /** Rows are kept under their own symbols. */
  predicate BySymbolValid(bySymbol: map<string, Row>) {
    forall k :: k in bySymbol ==> Strip(bySymbol[k].symbol) == k
  }

  lemma {:induction false} SelectedUnderSymbol(rows: seq<Row>)
    ensures BySymbolValid(BySymbol(rows))
  {
    hide Strip;
    if rows != [] {
      SelectedUnderSymbol(rows[..|rows| - 1]);
    }
  }

  predicate HasSymbol(approved: seq<Revalidation>, symbol: string) {
    exists i :: 0 <= i < |approved| && approved[i].intent.Some? && approved[i].intent.value.symbol == symbol
  }

  /** No two approved rows are about the same symbol. */
  predicate DistinctSymbols(approved: seq<Revalidation>) {
    forall i, j :: 0 <= i < j < |approved| && approved[i].intent.Some? && approved[j].intent.Some? ==>
      approved[i].intent.value.symbol != approved[j].intent.value.symbol
  }

  /** Every fill is positive and about one of the approved symbols, and no symbol is filled twice. */
  ghost predicate FillsApart(fills: seq<Fill>, approved: seq<Revalidation>) {
    && (forall i :: 0 <= i < |fills| ==> 0.0 < fills[i].quantity && HasSymbol(approved, fills[i].symbol))
    && (forall i, j :: 0 <= i < j < |fills| ==> fills[i].symbol != fills[j].symbol)
  }

  /** Without submissions on record each position moves by the fills that are not echoes, and the ledger never. */
  lemma {:induction false} UnrecordedBatchMoves(
    s: Session, b: Books, approved: seq<Revalidation>, bySymbol: map<string, Row>, ids: seq<string>, symbol: string)
    requires ValidStore(b.desk.orders) && ValidBook(b.ledger) && |approved| <= |ids|
    ensures var end, traded := Batch(s, b, approved, bySymbol, ids, false), TradedFills(s, b, approved, bySymbol, ids);
            && ValidStore(end.books.desk.orders) && end.books.ledger == b.ledger
            && Held(end.books.desk.account, symbol) - Held(b.desk.account, symbol) == NetOf(traded, symbol)
  {
    hide Continued, Held, ValidStore, Strip, NewlyTraded, SignedQuantity, NetOf;
    if approved != [] {
      var n := |approved| - 1;
      UnrecordedBatchMoves(s, b, approved[..n], bySymbol, ids, symbol);
      var before, fills :=
        Batch(s, b, approved[..n], bySymbol, ids, false), TradedFills(s, b, approved[..n], bySymbol, ids);
      ContinuedMoves(s, before, approved[n], bySymbol, ids[n], symbol);
      var traded := NewlyTraded(s, before, approved[n], bySymbol, ids[n]);
      if traded.Some? {
        OneMoreFill(fills, traded.value, symbol);
        assert TradedFills(s, b, approved, bySymbol, ids) == fills + [traded.value];
      } else {
        assert TradedFills(s, b, approved, bySymbol, ids) == fills;
      }
    } else {
      assert NetOf([], symbol) == 0.0 by { NetOfAbsent([], symbol); }
    }
  }

  /** When no two approved rows are about the same symbol, no two traded fills are. */
  lemma {:induction false} TradedApart(
    s: Session, b: Books, approved: seq<Revalidation>, bySymbol: map<string, Row>, ids: seq<string>)
    requires ValidStore(b.desk.orders) && ValidBook(b.ledger) && |approved| <= |ids|
    requires BySymbolValid(bySymbol) && DistinctSymbols(approved)
    ensures FillsApart(TradedFills(s, b, approved, bySymbol, ids), approved)
  {
    hide Continued, Held, ValidStore, Strip, NewlyTraded, HasSymbol;
    if approved != [] {
      var n := |approved| - 1;
      TradedApart(s, b, approved[..n], bySymbol, ids);
      UnrecordedBatchMoves(s, b, approved[..n], bySymbol, ids, "");
      ContinuedMoves(s, Batch(s, b, approved[..n], bySymbol, ids, false), approved[n], bySymbol, ids[n], "");
      hide FillsApart;
      var fills, after := TradedFills(s, b, approved[..n], bySymbol, ids), TradedFills(s, b, approved, bySymbol, ids);
      assert fills + [] == fills;
      FillsStayApart(fills, after, approved);
    }
  }

  /** Under unused ids nothing is echoed, and every fill is traded. */
  lemma {:induction false} UnusedAreTraded(
    s: Session, b: Books, approved: seq<Revalidation>, bySymbol: map<string, Row>, ids: seq<string>)
    requires ValidStore(b.desk.orders) && ValidBook(b.ledger) && |approved| <= |ids| && Unused(b.desk.orders, ids)
    ensures var end := Batch(s, b, approved, bySymbol, ids, false);
            && end.fills == TradedFills(s, b, approved, bySymbol, ids)
            && (forall j :: |approved| <= j < |ids| ==> ids[j] !in end.books.desk.orders)
  {
    hide Continued, Held, ValidStore, Strip, NewlyTraded, SignedQuantity;
    if approved != [] {
      var n := |approved| - 1;
      UnusedAreTraded(s, b, approved[..n], bySymbol, ids);
      UnrecordedBatchMoves(s, b, approved[..n], bySymbol, ids, "");
      ContinuedMoves(s, Batch(s, b, approved[..n], bySymbol, ids, false), approved[n], bySymbol, ids[n], "");
    }
  }

  lemma FillsStayApart(before: seq<Fill>, after: seq<Fill>, approved: seq<Revalidation>)
    requires approved != [] && DistinctSymbols(approved) && FillsApart(before, approved[..|approved| - 1])
    requires var last := approved[|approved| - 1];
             after == before
             || exists f :: after == before + [f] && 0.0 < f.quantity && last.intent.Some?
                            && f.symbol == last.intent.value.symbol
    ensures FillsApart(after, approved)
  {
    var n := |approved| - 1;
    forall symbol | HasSymbol(approved[..n], symbol)
      ensures HasSymbol(approved, symbol) && (approved[n].intent.Some? ==> symbol != approved[n].intent.value.symbol)
    {
      var i :| 0 <= i < n && approved[..n][i].intent.Some? && approved[..n][i].intent.value.symbol == symbol;
      assert approved[i].intent.value.symbol == symbol;
    }
  }

  lemma {:induction false} NetOfAbsent(fills: seq<Fill>, symbol: string)
    requires forall i :: 0 <= i < |fills| ==> fills[i].symbol != symbol
    ensures NetOf(fills, symbol) == 0.0
  {
    if fills != [] {
      NetOfAbsent(fills[..|fills| - 1], symbol);
    }
  }

  /** In every symbol as much is sold as is bought. */
  ghost predicate CancelOut(fills: seq<Fill>) {
    forall symbol: string :: NetOf(fills, symbol) == 0.0
  }

  lemma AgreeWhenCancelled(a: Account, ledger: Book, fills: seq<Fill>)
    requires forall symbol: string :: Held(a, symbol) - PositionIn(ledger, symbol).quantity == NetOf(fills, symbol)
    ensures Agree(a, ledger) <==> CancelOut(fills)
  {
    hide Held, PositionIn;
    if Agree(a, ledger) {
      forall symbol: string
        ensures NetOf(fills, symbol) == 0.0
      {
        assert Held(a, symbol) == PositionIn(ledger, symbol).quantity;
      }
      assert CancelOut(fills);
    }
    if CancelOut(fills) {
      forall symbol: string
        ensures Held(a, symbol) == PositionIn(ledger, symbol).quantity
      {
        assert NetOf(fills, symbol) == 0.0;
      }
      assert Agree(a, ledger);
    }
  }

  /**
   * After an unrecorded batch account and ledger still agree if and only if its fills, echoes apart, cancel out in
   * every symbol; when no two approved rows are about the same symbol, that is if and only if it traded nothing. Under
   * unused ids there are no echoes.
   */
  lemma UnrecordedBatchDrifts(
    s: Session, b: Books, approved: seq<Revalidation>, bySymbol: map<string, Row>, ids: seq<string>)
    requires ValidStore(b.desk.orders) && ValidBook(b.ledger) && Agree(b.desk.account, b.ledger) && |approved| <= |ids|
    ensures var end, traded := Batch(s, b, approved, bySymbol, ids, false), TradedFills(s, b, approved, bySymbol, ids);
            && end.books.ledger == b.ledger
            && (Agree(end.books.desk.account, end.books.ledger) <==> CancelOut(traded))
            && (BySymbolValid(bySymbol) && DistinctSymbols(approved) ==>
                  (Agree(end.books.desk.account, end.books.ledger) <==> traded == []))
            && (Unused(b.desk.orders, ids) ==> traded == end.fills)
  {
    hide Batch, TradedFills, Held, PositionIn, ValidStore, Unused, BySymbolValid, HasSymbol;
    var end, traded := Batch(s, b, approved, bySymbol, ids, false), TradedFills(s, b, approved, bySymbol, ids);
    UnrecordedBatchMoves(s, b, approved, bySymbol, ids, "");
    forall symbol
      ensures Held(end.books.desk.account, symbol) - PositionIn(end.books.ledger, symbol).quantity
              == NetOf(traded, symbol)
    {
      UnrecordedBatchMoves(s, b, approved, bySymbol, ids, symbol);
    }
    AgreeWhenCancelled(end.books.desk.account, end.books.ledger, traded);
    if BySymbolValid(bySymbol) && DistinctSymbols(approved) && traded != [] {
      TradedApart(s, b, approved, bySymbol, ids);
      var last := |traded| - 1;
      NetOfAbsent(traded[..last], traded[last].symbol);
      assert NetOf(traded, traded[last].symbol) != 0.0;
    }
    if Unused(b.desk.orders, ids) {
      UnusedAreTraded(s, b, approved, bySymbol, ids);
    }
  }

  // ----- Such a batch

  const REBALANCE := Session(FREE, HALF_LIMIT, PaperSandbox, UNIT_PRICE, map[], Market, 1.0)
  const NO_HOLDINGS := Books(Desk(HUNDRED, map[]), map[])

  function FirstRebalance(): (approved: seq<Revalidation>) {
    [Revalidation(RiskContext(100.0, 0.0, 0.0, ""), Some(HALF), Approved)]
  }

  lemma SingleBatch(s: Session, b: Books, approved: Revalidation, bySymbol: map<string, Row>, id: string)
    requires ValidBook(b.ledger)
    ensures Batch(s, b, [approved], bySymbol, [id], false)
            == Continued(s, Progress(b, [], None), approved, bySymbol, id, false)
  {
    hide Continued;
    var rows := [approved];
    assert rows[..|rows| - 1] == [];
    assert Batch(s, b, rows[..|rows| - 1], bySymbol, [id], false) == Progress(b, [], None);
  }

  /** The first rebalance of 100 in cash, without a record of it: the account buys 50 and the ledger stays empty. */
  lemma UnrecordedRebalanceDrifts()
    ensures var end := Batch(REBALANCE, NO_HOLDINGS, FirstRebalance(), map["A" := HALF_ROW], ["first"], false);
            && Agree(NO_HOLDINGS.desk.account, NO_HOLDINGS.ledger)
            && |end.fills| == 1 && Held(end.books.desk.account, "A") == 50.0
            && !Agree(end.books.desk.account, end.books.ledger)
  {
    hide SubmittedRow, AfterWhole, CallsFor, FilledWhole, Frictionless, ReserveCoversCosts, TargetQuantity, ContextOf;
    PremisesCanBeMet();
    var approved, bySymbol := FirstRebalance(), map["A" := HALF_ROW];
    ApprovedRowLandsOnTarget(FREE, HALF_LIMIT, PaperSandbox, NO_HOLDINGS.desk, HALF_ROW, UNIT_PRICE, map[], Market, 1.0,
                             "first", HALF);
    WholePositions(FREE, HUNDRED, OrderFor(HALF, "first"), 1.0);
    assert Delta(OrderFor(HALF, "first")) == 50.0;
    var (desk, submission) := SubmittedRow(
      FREE, HALF_LIMIT, PaperSandbox, NO_HOLDINGS.desk, HALF_ROW, UNIT_PRICE, map[], Market, 1.0, "first");
    assert RowSettled(REBALANCE, NO_HOLDINGS, HALF_ROW, "first", false)
        == (Books(desk, map[]), Some(submission.result.value), None);
    SingleBatch(REBALANCE, NO_HOLDINGS, approved[0], bySymbol, "first");
    var end := Batch(REBALANCE, NO_HOLDINGS, approved, bySymbol, ["first"], false);
    assert Held(end.books.desk.account, "A") != PositionIn(end.books.ledger, "A").quantity;
  }
}
