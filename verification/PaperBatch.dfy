/** Executing a recommended portfolio as one batch (`paper_execution.py`). */
module PaperBatch {
  import opened Base
  import opened Orders
  import opened Execution
  import opened Equity
  import opened Risk
  import opened ContextBuilder
  import opened TradeFacade
  import opened Ledger
  import opened TradingPipeline

  /** Why a batch stopped early; what was filled before stays filled. */
  datatype Stop =
    | LiveMode | RowStopped(error: RowError) | RiskStopped(reason: RiskError) | EngineStopped(engineError: Error)

  // ----- The batch on values

  /** What stays the same during a batch: engine, gate, mode, prices and order parameters. */
  datatype Session = Session(
    rates: Rates, gate: Gate, mode: Mode, prices: Prices, markets: Markets, orderType: OrderType, lot: real)

  /** A fill is booked when the submission is on record, and a refusal stops the batch. */
  function Concluded(b: Books, submission: Submission, audited: bool): (r: (Books, Option<Fill>, Option<Stop>))
    requires ValidBook(b.ledger)
    ensures ValidBook(r.0.ledger)
  {
    match submission
    case RowRefused(error) => (b, None, Some(RowStopped(error)))
    case RiskRefused(reason) => (b, None, Some(RiskStopped(reason)))
    case Sent(Err(error)) => (b, None, Some(EngineStopped(error)))
    case NothingToDo => (b, None, None)
    case SentLive => (b, None, None)
    case Sent(Ok(f)) =>
      if f.quantity <= 0.0 || f.status !in {Filled, PartiallyFilled} then (b, None, None)
      else (if audited then Booked(b, f.symbol, f).0 else b, Some(f), None)
  }

  /** Submit one row and conclude from what came of it. */
  ghost function RowSettled(s: Session, b: Books, row: Row, id: string, audited: bool)
    : (r: (Books, Option<Fill>, Option<Stop>))
    requires ValidBook(b.ledger)
    ensures ValidBook(r.0.ledger)
  {
    var (desk, submission) :=
      SubmittedRow(s.rates, s.gate, s.mode, b.desk, row, s.prices, s.markets, s.orderType, s.lot, id);
    Concluded(b.(desk := desk), submission, audited)
  }

  datatype Progress = Progress(books: Books, fills: seq<Fill>, stop: Option<Stop>)

  ghost function Continued(
    s: Session, p: Progress, approved: Revalidation, bySymbol: map<string, Row>, id: string,
    audited: bool): (r: Progress)
    requires ValidBook(p.books.ledger)
    ensures ValidBook(r.books.ledger)
  {
    if p.stop.Some? || approved.intent.None? || approved.intent.value.symbol !in bySymbol then p
    else
      var (books, fill, stop) := RowSettled(s, p.books, bySymbol[approved.intent.value.symbol], id, audited);
      Progress(books, if fill.Some? then p.fills + [fill.value] else p.fills, stop)
  }

  /** The approved rows one after the other, each under its own id. */
  ghost function Batch(
    s: Session, b: Books, approved: seq<Revalidation>, bySymbol: map<string, Row>, ids: seq<string>,
    audited: bool): (r: Progress)
    requires ValidBook(b.ledger) && |approved| <= |ids|
    ensures ValidBook(r.books.ledger)
  {
    if approved == [] then Progress(b, [], None)
    else
      var n := |approved| - 1;
      Continued(s, Batch(s, b, approved[..n], bySymbol, ids, audited), approved[n], bySymbol, ids[n], audited)
  }

  /** The last selected row of each symbol. */
  function BySymbol(rows: seq<Row>): (r: map<string, Row>) {
    if rows == [] then map[]
    else
      var last := rows[|rows| - 1];
      var before := BySymbol(rows[..|rows| - 1]);
      if last.selected then before[Strip(last.symbol) := last] else before
  }

  lemma BookedMeans(b: Books, symbol: string, f: Fill)
    requires ValidBook(b.ledger) && 0.0 < f.quantity && f.status != Rejected
    ensures var applied := Applied(PositionIn(b.ledger, symbol), f.side, f.quantity, f.price);
            Booked(b, symbol, f).0 == if applied.Ok? then b.(ledger := b.ledger[symbol := applied.value]) else b
  {
  }

  class PaperExecutionOrchestrator {
    const facade: InternalTradeFacade
    const ledger: PortfolioLedger

    constructor (facade: InternalTradeFacade, ledger: PortfolioLedger)
      ensures this.facade == facade && this.ledger == ledger
    {
      this.facade, this.ledger := facade, ledger;
    }

    function Value(): (r: Books)
      reads facade.gateway.paper.account, facade.gateway.lifecycle, ledger
    {
      Books(facade.gateway.Value(), ledger.positions)
    }

    function SessionOf(mode: Mode, prices: Prices, markets: Markets, orderType: OrderType, lot: real): (r: Session)
      reads facade.risk
    {
      Session(facade.gateway.paper.rates, facade.risk.Value(), mode, prices, markets, orderType, lot)
    }

    /** One approved row: submit it, and book the fill when the submission is on record. */
    method Settle(
      mode: Mode, row: Row, prices: Prices, markets: Markets, orderType: OrderType, lot: real, id: string,
      audited: bool)
      returns (fill: Option<Fill>, stop: Option<Stop>)
      requires facade.OneAccount() && ledger.Valid()
      modifies facade.gateway.paper.account, facade.gateway.lifecycle, ledger
      ensures ledger.Valid() && facade.risk.Value() == old(facade.risk.Value())
      ensures (Value(), fill, stop) ==
              RowSettled(SessionOf(mode, prices, markets, orderType, lot), old(Value()), row, id, audited)
    {
      hide SubmittedRow, Concluded;
      var submission := facade.SubmitRow(mode, row, prices, markets, orderType, lot, id);
      fill, stop := Conclude(submission, audited);
    }

    method Conclude(submission: Submission, audited: bool) returns (fill: Option<Fill>, stop: Option<Stop>)
      requires ledger.Valid()
      modifies ledger
      ensures ledger.Valid()
      ensures (Value(), fill, stop) == Concluded(old(Value()), submission, audited)
    {
      hide Applied, Booked;
      fill, stop := None, None;
      match submission {
        case RowRefused(error) => stop := Some(RowStopped(error));
        case RiskRefused(reason) => stop := Some(RiskStopped(reason));
        case Sent(Err(error)) => stop := Some(EngineStopped(error));
        case NothingToDo =>
        case SentLive =>
        case Sent(Ok(f)) =>
          if f.quantity > 0.0 && f.status in {Filled, PartiallyFilled} {
            fill := Some(f);
            if audited {
              BookedMeans(Value(), f.symbol, f);
              var applied := ledger.ApplyFill(f.symbol, f.side, f.quantity, f.price);
            }
          }
      }
    }

    /**
     * Preflight all rows against one account; unless one is rejected, submit the approved ones in turn under the ids
     * made up for them, revalidating each against the account as it then is. `audited` says that submissions are on
     * record.
     */
    method Execute(
      mode: Mode, rows: seq<Row>, prices: Prices, markets: Markets, orderType: OrderType, lot: real, ids: seq<string>,
      audited: bool)
      returns (fills: seq<Fill>, rejected: seq<Row>, stop: Option<Stop>)
      requires facade.OneAccount() && ledger.Valid() && |rows| <= |ids|
      modifies facade.gateway.paper.account, facade.gateway.lifecycle, ledger
      ensures ledger.Valid()
      ensures mode == RealLive ==> Value() == old(Value()) && fills == [] && stop == Some(LiveMode)
      ensures mode != RealLive ==>
                rejected == FailedRows(facade.risk.Value(), old(Value().desk.account), rows, prices, markets,
                                       orderType, lot)
      ensures mode != RealLive && rejected != [] ==> Value() == old(Value()) && fills == [] && stop == None
      ensures mode != RealLive && rejected == [] ==>
                var approved := PassedRows(facade.risk.Value(), old(Value().desk.account), rows, prices, markets,
                                           orderType, lot);
                && |approved| <= |ids|
                && Progress(Value(), fills, stop) ==
                   Batch(SessionOf(mode, prices, markets, orderType, lot), old(Value()), approved, BySymbol(rows), ids,
                         audited)
    {
      hide Batch, FailedRows, PassedRows, BySymbol;
      fills, rejected, stop := [], [], None;
      if mode == RealLive {
        stop := Some(LiveMode);
        return;
      }
      var approved;
      approved, rejected := facade.Preflight(rows, prices, markets, orderType, lot);
      if rejected != [] {
        return;
      }
      PassedAtMostAll(facade.risk.Value(), facade.gateway.Value().account, rows, prices, markets, orderType, lot);
      var rowBySymbol := SelectedRows(rows);
      fills, stop := SubmitApproved(mode, approved, rowBySymbol, prices, markets, orderType, lot, ids, audited);
    }

    method SubmitApproved(
      mode: Mode, approved: seq<Revalidation>, rowBySymbol: map<string, Row>, prices: Prices, markets: Markets,
      orderType: OrderType, lot: real, ids: seq<string>, audited: bool)
      returns (fills: seq<Fill>, stop: Option<Stop>)
      requires facade.OneAccount() && ledger.Valid() && |approved| <= |ids|
      modifies facade.gateway.paper.account, facade.gateway.lifecycle, ledger
      ensures ledger.Valid() && facade.risk.Value() == old(facade.risk.Value())
      ensures Progress(Value(), fills, stop) ==
              Batch(SessionOf(mode, prices, markets, orderType, lot), old(Value()), approved, rowBySymbol, ids, audited)
    {
      hide RowSettled;
      fills, stop := [], None;
      ghost var s, b := SessionOf(mode, prices, markets, orderType, lot), Value();
      for i := 0 to |approved|
        invariant ledger.Valid() && facade.risk.Value() == old(facade.risk.Value()) && stop.None?
        invariant Progress(Value(), fills, stop) == Batch(s, b, approved[..i], rowBySymbol, ids, audited)
      {
        assert approved[..i + 1][..i] == approved[..i];
        if approved[i].intent.Some? && approved[i].intent.value.symbol in rowBySymbol {
          var row, fill := rowBySymbol[approved[i].intent.value.symbol], None;
          fill, stop := Settle(mode, row, prices, markets, orderType, lot, ids[i], audited);
          if fill.Some? {
            fills := fills + [fill.value];
          }
          if stop.Some? {
            BatchStops(s, b, approved, rowBySymbol, ids, audited, i + 1);
            return;
          }
        }
      }
      assert approved[..|approved|] == approved;
    }
  }

  method SelectedRows(rows: seq<Row>) returns (m: map<string, Row>)
    ensures m == BySymbol(rows)
  {
    hide Strip;
    m := map[];
    for i := 0 to |rows|
      invariant m == BySymbol(rows[..i])
    {
      assert rows[..i + 1][..i] == rows[..i];
      if rows[i].selected {
        m := m[Strip(rows[i].symbol) := rows[i]];
      }
    }
    assert rows[..|rows|] == rows;
  }

  lemma {:induction false} PassedAtMostAll(
    g: Gate, a: Account, rows: seq<Row>, prices: Prices, markets: Markets, orderType: OrderType, lot: real)
    ensures |PassedRows(g, a, rows, prices, markets, orderType, lot)| <= |rows|
  {
    hide Checked;
    if rows != [] {
      PassedAtMostAll(g, a, rows[..|rows| - 1], prices, markets, orderType, lot);
    }
  }

  /** After a stop nothing more happens. */
  lemma {:induction false} BatchStops(
    s: Session, b: Books, approved: seq<Revalidation>, bySymbol: map<string, Row>, ids: seq<string>, audited: bool,
    i: nat)
    requires ValidBook(b.ledger) && i <= |approved| <= |ids|
    requires Batch(s, b, approved[..i], bySymbol, ids, audited).stop.Some?
    ensures Batch(s, b, approved, bySymbol, ids, audited) == Batch(s, b, approved[..i], bySymbol, ids, audited)
    decreases |approved| - i
  {
    hide RowSettled;
    if i < |approved| {
      assert approved[..i + 1][..i] == approved[..i];
      BatchStops(s, b, approved, bySymbol, ids, audited, i + 1);
    } else {
      assert approved[..i] == approved;
    }
  }

  /** Every approved row is found again when it is submitted. */
  lemma {:induction false} ApprovedIsFound(
    g: Gate, a: Account, rows: seq<Row>, prices: Prices, markets: Markets, orderType: OrderType, lot: real, i: nat)
    requires i < |PassedRows(g, a, rows, prices, markets, orderType, lot)|
    ensures var r := PassedRows(g, a, rows, prices, markets, orderType, lot)[i];
            r.intent.Some? && r.intent.value.symbol in BySymbol(rows)
  {
    hide Strip, ContextOf, PortfolioApproval, TargetQuantity;
    var before, last := rows[..|rows| - 1], rows[|rows| - 1];
    if i < |PassedRows(g, a, before, prices, markets, orderType, lot)| {
      ApprovedIsFound(g, a, before, prices, markets, orderType, lot, i);
    }
  }
}
