/** The account and the P&L ledger fed from the same fills (`pipeline.py`). */
module TradingPipeline {
  import opened Base
  import opened Money
  import opened Orders
  import opened Execution
  import opened GatewayRuns
  import opened Equity
  import opened Risk
  import opened Ledger
  import opened Totals

  type Book = map<string, Position>

  /** The desk together with the ledger's positions. */
  datatype Books = Books(desk: Desk, ledger: Book)

  predicate ValidBook(ledger: Book) {
    forall s :: s in ledger ==> 0.0 <= ledger[s].quantity
  }

  function PositionIn(ledger: Book, symbol: string): (r: Position) {
    GetOr(ledger, symbol, FLAT)
  }

  /** The ledger holds exactly what the account holds. */
  ghost predicate Agree(a: Account, ledger: Book) {
    forall s :: Held(a, s) == PositionIn(ledger, s).quantity
  }

  function PnlOf(p: Position, mark: real): (r: real) {
    p.realized + Unrealized(p, mark)
  }

  ghost function Profits(ledger: Book, marks: Prices): (r: map<string, real>) {
    map s | s in ledger :: PnlOf(ledger[s], GetOr(marks, s, 0.0))
  }

  /** Realised plus unrealised P&L over all symbols. */
  ghost function LedgerPnl(ledger: Book, marks: Prices): (r: real) {
    Total(Profits(ledger, marks))
  }

  // ----- One fill applied to both

  /** A ledger fill moves its P&L by what it is worth at the mark less what it cost, or the reverse. */
  lemma PnlAfterFill(ledger: Book, marks: Prices, symbol: string, side: Side, quantity: real, price: real)
    requires ValidBook(ledger) && Applied(PositionIn(ledger, symbol), side, quantity, price).Ok?
    ensures var after := ledger[symbol := Applied(PositionIn(ledger, symbol), side, quantity, price).value];
            LedgerPnl(after, marks) ==
            LedgerPnl(ledger, marks)
            + (if side == Buy then LineValue(quantity, symbol, marks) - Product(price, quantity)
               else Product(price, quantity) - LineValue(quantity, symbol, marks))
  {
    var mark := GetOr(marks, symbol, 0.0);
    PositionPnlMoves(PositionIn(ledger, symbol), side, quantity, price, mark);
    PnlAfterUpdate(ledger, marks, symbol, Applied(PositionIn(ledger, symbol), side, quantity, price).value);
    assert LineValue(quantity, symbol, marks) == Product(mark, quantity);
    hide Applied, PnlOf, Product, LineValue, LedgerPnl, PositionIn;
  }

  lemma PnlAfterUpdate(ledger: Book, marks: Prices, symbol: string, next: Position)
    ensures LedgerPnl(ledger[symbol := next], marks) ==
            LedgerPnl(ledger, marks) - PnlOf(PositionIn(ledger, symbol), GetOr(marks, symbol, 0.0))
            + PnlOf(next, GetOr(marks, symbol, 0.0))
  {
    var mark := GetOr(marks, symbol, 0.0);
    hide PnlOf;
    FlatIsWorthless(mark);
    TotalUpdate(Profits(ledger, marks), symbol, PnlOf(next, mark));
    assert Profits(ledger[symbol := next], marks) == Profits(ledger, marks)[symbol := PnlOf(next, mark)];
  }

  lemma FlatIsWorthless(mark: real)
    ensures PnlOf(FLAT, mark) == 0.0
  {
  }

  lemma PositionPnlMoves(p: Position, side: Side, quantity: real, price: real, mark: real)
    requires 0.0 <= p.quantity && Applied(p, side, quantity, price).Ok?
    ensures var next := Applied(p, side, quantity, price).value;
            PnlOf(next, mark) ==
            PnlOf(p, mark)
            + (if side == Buy then Product(mark, quantity) - Product(price, quantity)
               else Product(price, quantity) - Product(mark, quantity))
  {
    var next := Applied(p, side, quantity, price).value;
    AppliedBook(p, side, quantity, price);
    UnrealizedSplit(p, mark);
    UnrealizedSplit(next, mark);
    ProductSum(mark, p.quantity, quantity);
    ProductSum(mark, next.quantity, quantity);
    hide Applied, Unrealized, Product;
  }

  /** How far account equity is ahead of ledger P&L. */
  ghost function Gap(a: Account, ledger: Book, marks: Prices): (r: real) {
    EquityOf(a, marks) - LedgerPnl(ledger, marks)
  }

  /**
   * An engine fill applied to the ledger at the fill price: the ledger accepts it, the two still hold the same, and
   * up to the charges their values move together to within a cent.
   */
  lemma FillOnBoth(
    c: Rates, a: Account, ledger: Book, symbol: string, side: Side, quantity: real, price: real, marks: Prices)
    requires 0.0 < quantity && 0.0 < price && 0.0 <= c.slippageBps < 10000.0
    requires Covered(c, a, symbol, side, quantity, price)
    requires ValidBook(ledger) && Agree(a, ledger)
    ensures var applied := Applied(PositionIn(ledger, symbol), side, quantity, FillPrice(c, side, price));
            var after := Traded(c, a, symbol, side, quantity, price);
            && applied.Ok?
            && var book := ledger[symbol := applied.value];
               var drift := Gap(after, book, marks) - Gap(a, ledger, marks)
                            + Fee(c, side, quantity, price) + Tax(c, side, quantity, price);
               ValidBook(book) && Agree(after, book) && -0.01 < drift < 0.01
  {
    var fillPrice := FillPrice(c, side, price);
    PositiveFillPrice(c, side, price);
    TradeMovesEquity(c, a, symbol, side, quantity, price, marks);
    GrossNearExact(c, side, quantity, price);
    hide Gross, Fee, FillPrice, Traded, LineValue, Product, EquityOf, LedgerPnl, Covered;
    FillKeepsAgreement(c, a, ledger, symbol, side, quantity, price);
    PnlAfterFill(ledger, marks, symbol, side, quantity, fillPrice);
  }

  lemma PositiveFillPrice(c: Rates, side: Side, price: real)
    requires 0.0 < price && 0.0 <= c.slippageBps < 10000.0
    ensures 0.0 < FillPrice(c, side, price)
  {
    MulStrict(0.0, 1.0 - c.slippageBps / 10000.0, price);
    MulStrict(0.0, 1.0 + c.slippageBps / 10000.0, price);
  }

  lemma GrossNearExact(c: Rates, side: Side, quantity: real, price: real)
    ensures -0.01 < Gross(c, side, quantity, price) - Product(FillPrice(c, side, price), quantity) < 0.01
  {
    assert Product(FillPrice(c, side, price), quantity) == quantity * FillPrice(c, side, price);
  }

  lemma FillKeepsAgreement(c: Rates, a: Account, ledger: Book, symbol: string, side: Side, quantity: real, price: real)
    requires 0.0 < quantity && 0.0 < FillPrice(c, side, price)
    requires Covered(c, a, symbol, side, quantity, price)
    requires ValidBook(ledger) && Agree(a, ledger)
    ensures var applied := Applied(PositionIn(ledger, symbol), side, quantity, FillPrice(c, side, price));
            && applied.Ok?
            && ValidBook(ledger[symbol := applied.value])
            && Agree(Traded(c, a, symbol, side, quantity, price), ledger[symbol := applied.value])
  {
    hide Gross, Fee, Tax, FillPrice, Applied;
    assert Held(a, symbol) == PositionIn(ledger, symbol).quantity;
    var book := ledger[symbol := Applied(PositionIn(ledger, symbol), side, quantity, FillPrice(c, side, price)).value];
    forall s
      ensures Held(Traded(c, a, symbol, side, quantity, price), s) == PositionIn(book, s).quantity
    {
      assert Held(a, s) == PositionIn(ledger, s).quantity;
    }
  }

  // ----- Runs of the pipeline

  /**
   * One `TradingPipeline.run`: what the agents decided (no side for HOLD), the gate and environment mode as they are
   * at the time, and the client order id made up for the order.
   */
  datatype PipelineCall = PipelineCall(
    gate: Gate, mode: Mode, action: Option<Side>, symbol: string, quantity: real, price: real, id: string)

  datatype Outcome = NotExecuted | TradeDone(pnl: real, charges: real) | Escaped(error: Error)

  function CallOrder(call: PipelineCall): (r: Order)
    requires call.action.Some?
  {
    Order(call.symbol, call.action.value, call.quantity, Market, None, call.id)
  }

  /** Book a gateway fill; a fill the ledger refuses is reported as not executed, whatever the account did. */
  function Booked(b: Books, symbol: string, f: Fill): (r: (Books, Outcome))
    requires ValidBook(b.ledger)
  {
    if f.quantity <= 0.0 || f.status == Rejected then (b, NotExecuted)
    else
      match Applied(PositionIn(b.ledger, symbol), f.side, f.quantity, f.price)
      case Err(_) => (b, NotExecuted)
      case Ok(p) => (b.(ledger := b.ledger[symbol := p]), TradeDone(PnlOf(p, f.price), f.fee + f.tax))
  }

  function PipelineStep(c: Rates, b: Books, call: PipelineCall): (r: (Books, Outcome))
    requires ValidBook(b.ledger)
  {
    if call.action.None? then (b, NotExecuted)
    else if Approval(call.gate, b.desk.account, CallOrder(call), call.price, None).Denied? then (b, NotExecuted)
    else
      var (desk, r) := Executed(c, call.mode, b.desk, CallOrder(call), call.price, None);
      match r
      case Err(error) => (b.(desk := desk), if error == LiveRefused then Escaped(error) else NotExecuted)
      case Ok(fill) => Booked(b.(desk := desk), call.symbol, fill)
  }

  class Pipeline {
    const gateway: ExecutionGateway
    const risk: RiskGuardian
    const ledger: PortfolioLedger

    constructor (gateway: ExecutionGateway, risk: RiskGuardian, ledger: PortfolioLedger)
      requires risk.account == gateway.paper.account
      ensures this.gateway == gateway && this.risk == risk && this.ledger == ledger
    {
      this.gateway, this.risk, this.ledger := gateway, risk, ledger;
    }

    function Value(): (r: Books)
      reads gateway.paper.account, gateway.lifecycle, ledger
    {
      Books(gateway.Value(), ledger.positions)
    }

    method Run(mode: Mode, action: Option<Side>, symbol: string, quantity: real, price: real, id: string)
      returns (outcome: Outcome)
      requires risk.account == gateway.paper.account && ledger.Valid()
      modifies gateway.paper.account, gateway.lifecycle, ledger
      ensures ledger.Valid()
      ensures (Value(), outcome) ==
              PipelineStep(gateway.paper.rates, old(Value()),
                           PipelineCall(risk.Value(), mode, action, symbol, quantity, price, id))
    {
      hide Approval, Executed, Applied;
      if action.None? {
        return NotExecuted;
      }
      var order := Order(symbol, action.value, quantity, Market, None, id);
      var verdict := risk.Approve(order, price, None);
      if verdict.Denied? {
        return NotExecuted;
      }
      var r := gateway.Execute(mode, order, price, None);
      if r.Err? {
        return if r.error == LiveRefused then Escaped(r.error) else NotExecuted;
      }
      var fill := r.value;
      if fill.quantity <= 0.0 || fill.status == Rejected {
        return NotExecuted;
      }
      var applied := ledger.ApplyFill(symbol, fill.side, fill.quantity, fill.price);
      if applied.Err? {
        return NotExecuted;
      }
      outcome := TradeDone(PnlOf(applied.value, fill.price), fill.fee + fill.tax);
    }
  }

  /** A run trades exactly when the gate lets the order pass and gateway and ledger accept it. */
  predicate Executes(c: Rates, b: Books, call: PipelineCall, fill: Fill, position: Position)
    requires ValidBook(b.ledger)
  {
    && call.action.Some?
    && var order := Order(call.symbol, call.action.value, call.quantity, Market, None, call.id);
       && WithinLimits(call.gate, b.desk.account, order, call.price, b.desk.account.cash)
       && Executed(c, call.mode, b.desk, order, call.price, None).1 == Ok(fill)
       && 0.0 < fill.quantity && fill.status != Rejected
       && Applied(GetOr(b.ledger, call.symbol, FLAT), fill.side, fill.quantity, fill.price) == Ok(position)
  }

  /**
   * What a run reports: a trade with the P&L of the new position at the fill price and the charges of the fill, and the
   * ledger then has that position; the refusal of the live mode, which escapes; or nothing executed, with the ledger as
   * it was.
   */
  lemma RunReports(c: Rates, b: Books, call: PipelineCall)
    requires ValidBook(b.ledger)
    ensures var (after, outcome) := PipelineStep(c, b, call);
            && (outcome.TradeDone? <==> exists fill, position :: Executes(c, b, call, fill, position))
            && (forall fill, position :: Executes(c, b, call, fill, position) ==>
                  && after.ledger == b.ledger[call.symbol := position]
                  && outcome.pnl == position.realized + (fill.price - position.averagePrice) * position.quantity
                  && outcome.charges == fill.fee + fill.tax)
            && (!outcome.TradeDone? ==> after.ledger == b.ledger)
            && (call.action.None? ==> after == b && outcome == NotExecuted)
            && (outcome.Escaped? ==> outcome.error == LiveRefused)
            && (call.action.Some? && call.mode == RealLive ==>
                  && after == b
                  && (outcome == Escaped(LiveRefused) <==>
                      WithinLimits(call.gate, b.desk.account, CallOrder(call), call.price, b.desk.account.cash)))
  {
    hide Delivered, Applied, Approval, WithinLimits;
    if call.action.Some? {
      ApprovedExactly(call.gate, b.desk.account, CallOrder(call), call.price, None);
      var fill := Executed(c, call.mode, b.desk, CallOrder(call), call.price, None).1;
      if PipelineStep(c, b, call).1.TradeDone? {
        assert Executes(c, b, call, fill.value,
                        Applied(PositionIn(b.ledger, call.symbol), fill.value.side, fill.value.quantity,
                                fill.value.price).value);
      }
    }
  }

  function AfterRun(c: Rates, b: Books, calls: seq<PipelineCall>): (r: Books)
    requires ValidBook(b.ledger)
    decreases |calls|
  {
    if calls == [] then b else AfterRun(c, PipelineStep(c, b, calls[0]).0, calls[1..])
  }

  /** Number of executed trades in a run. */
  function TradeCount(c: Rates, b: Books, calls: seq<PipelineCall>): (r: nat)
    requires ValidBook(b.ledger)
    decreases |calls|
  {
    if calls == [] then 0
    else
      (if PipelineStep(c, b, calls[0]).1.TradeDone? then 1 else 0)
      + TradeCount(c, PipelineStep(c, b, calls[0]).0, calls[1..])
  }

  /** Fees and taxes of the executed trades of a run. */
  function ChargesPaid(c: Rates, b: Books, calls: seq<PipelineCall>): (r: real)
    requires ValidBook(b.ledger)
    decreases |calls|
  {
    if calls == [] then 0.0
    else (if PipelineStep(c, b, calls[0]).1.TradeDone? then PipelineStep(c, b, calls[0]).1.charges else 0.0)
         + ChargesPaid(c, PipelineStep(c, b, calls[0]).0, calls[1..])
  }

  /**
   * An order of any id: one whose record has nothing left to execute is echoed and moves nothing; any other either
   * changes no position, or the fill it reports is exactly what the account traded.
   */
  lemma GatewayExecution(c: Rates, mode: Mode, d: Desk, o: Order, price: real)
    requires ValidStore(d.orders)
    ensures var (after, r) := Executed(c, mode, d, o, price, None);
            && ValidStore(after.orders)
            && after.orders.Keys <= d.orders.Keys + {o.clientOrderId}
            && (Admit(mode, d, o, price).Settled? ==> after == d && r == Ok(Admit(mode, d, o, price).fill))
            && (!Admit(mode, d, o, price).Settled? ==> ReportsTrade(c, d.account, after.account, o, price, r))
  {
    hide Delivered, Traded, Covered, Gross, Fee, Tax, FillPrice;
    var admission := Admit(mode, d, o, price);
    if admission.Admitted? {
      AdmitShape(mode, d, o, price);
      DeliveryReports(c, admission.desk, admission.effective, price);
    }
  }

  /** The reply tells exactly what was traded: nothing on an error or an empty fill. */
  predicate ReportsTrade(c: Rates, before: Account, after: Account, o: Order, price: real, r: Result<Fill, Error>) {
    && (r.Err? || r.value.quantity <= 0.0 ==> after == before)
    && (r.Ok? && 0.0 < r.value.quantity ==>
          var f := r.value;
          && 0.0 < price && 0.0 <= c.slippageBps && f.status in {Filled, PartiallyFilled}
          && f.symbol == o.symbol && f.side == o.side
          && Covered(c, before, o.symbol, o.side, f.quantity, price)
          && after == Traded(c, before, o.symbol, o.side, f.quantity, price)
          && f.price == FillPrice(c, o.side, price)
          && f.fee == Fee(c, o.side, f.quantity, price) && f.tax == Tax(c, o.side, f.quantity, price))
  }

  lemma DeliveryReports(c: Rates, d: Desk, o: Order, price: real)
    requires ValidStore(d.orders) && OpenFor(d, o)
    ensures var (after, r) := Delivered(c, d, o, price, None);
            && ValidStore(after.orders) && after.orders.Keys == d.orders.Keys
            && ReportsTrade(c, d.account, after.account, o, price, r)
  {
    hide Traded, Covered, Gross, Fee, Tax, FillPrice;
    Delivery(c, d, o, price, None);
  }

  /** The call is answered from the record of a finished order, and the ledger books that answer as a fill. */
  predicate EchoBooked(b: Books, call: PipelineCall) {
    && call.action.Some?
    && Approval(call.gate, b.desk.account, CallOrder(call), call.price, None) == Approved
    && Admit(call.mode, b.desk, CallOrder(call), call.price).Settled?
    && var echo := Admit(call.mode, b.desk, CallOrder(call), call.price).fill;
       && 0.0 < echo.quantity && echo.status != Rejected
       && (echo.side == Buy || echo.quantity <= PositionIn(b.ledger, echo.symbol).quantity)
  }

  lemma ApprovedIsPositive(g: Gate, a: Account, o: Order, price: real)
    requires Approval(g, a, o, price, None) == Approved
    ensures 0.0 < o.quantity && 0.0 < price
  {
  }

  /**
   * A call that books no echo keeps account and ledger in agreement and their values within a cent of each other,
   * whether its id is new, belongs to an open order, or to a finished one.
   */
  lemma StepTracks(c: Rates, b: Books, call: PipelineCall, marks: Prices)
    requires 0.0 <= c.slippageBps < 10000.0
    requires ValidStore(b.desk.orders) && ValidBook(b.ledger) && Agree(b.desk.account, b.ledger)
    requires !EchoBooked(b, call)
    ensures var (next, outcome) := PipelineStep(c, b, call);
            && ValidStore(next.desk.orders) && ValidBook(next.ledger) && Agree(next.desk.account, next.ledger)
            && next.desk.orders.Keys <= b.desk.orders.Keys + {call.id}
            && (outcome.TradeDone? ==>
                  -0.01 < Gap(next.desk.account, next.ledger, marks) - Gap(b.desk.account, b.ledger, marks)
                          + outcome.charges < 0.01)
            && (!outcome.TradeDone? ==> next.desk.account == b.desk.account && next.ledger == b.ledger)
  {
    hide Approval, Executed, Admit, Traded, Covered, Gross, Fee, Tax, FillPrice, Gap, ValidStore;
    if call.action.Some? && Approval(call.gate, b.desk.account, CallOrder(call), call.price, None) == Approved {
      var o := CallOrder(call);
      GatewayExecution(c, call.mode, b.desk, o, call.price);
      var (desk, r) := Executed(c, call.mode, b.desk, o, call.price, None);
      if Admit(call.mode, b.desk, o, call.price).Settled? {
        ApprovedIsPositive(call.gate, b.desk.account, o, call.price);
        EchoShape(call.mode, b.desk, o, call.price);
      } else if r.Ok? && 0.0 < r.value.quantity {
        hide Applied;
        FillOnBoth(c, b.desk.account, b.ledger, o.symbol, o.side, r.value.quantity, call.price, marks);
      }
    }
  }

  lemma EchoShape(mode: Mode, d: Desk, o: Order, price: real)
    requires Admit(mode, d, o, price).Settled?
    ensures var echo := Admit(mode, d, o, price).fill;
            echo.symbol == o.symbol && echo.side == o.side && echo.price == price && echo.fee == echo.tax == 0.0
  {
  }

  /** A booked echo moves the ledger and not the account. */
  lemma EchoDrifts(c: Rates, b: Books, call: PipelineCall)
    requires ValidStore(b.desk.orders) && ValidBook(b.ledger) && Agree(b.desk.account, b.ledger)
    requires EchoBooked(b, call)
    ensures var next := PipelineStep(c, b, call).0;
            && next.desk == b.desk
            && PositionIn(next.ledger, call.symbol).quantity != PositionIn(b.ledger, call.symbol).quantity
            && !Agree(next.desk.account, next.ledger)
  {
    hide Approval, Executed, Admit, AverageCost, Product, PnlOf;
    var o := CallOrder(call);
    GatewayExecution(c, call.mode, b.desk, o, call.price);
    ApprovedIsPositive(call.gate, b.desk.account, o, call.price);
    EchoShape(call.mode, b.desk, o, call.price);
    var next := PipelineStep(c, b, call).0;
    assert Held(b.desk.account, call.symbol) == PositionIn(b.ledger, call.symbol).quantity;
    assert PositionIn(next.ledger, call.symbol).quantity != Held(next.desk.account, call.symbol);
  }

  /** For every call: account and ledger still agree afterwards if and only if the call books no echo. */
  lemma AgreementAfterCall(c: Rates, b: Books, call: PipelineCall)
    requires 0.0 <= c.slippageBps < 10000.0
    requires ValidStore(b.desk.orders) && ValidBook(b.ledger) && Agree(b.desk.account, b.ledger)
    ensures var next := PipelineStep(c, b, call).0;
            Agree(next.desk.account, next.ledger) <==> !EchoBooked(b, call)
  {
    hide PipelineStep, EchoBooked, Agree, ValidStore;
    if EchoBooked(b, call) {
      EchoDrifts(c, b, call);
    } else {
      StepTracks(c, b, call, map[]);
    }
  }

  // ----- Runs without a booked echo

  predicate NoEchoes(c: Rates, b: Books, calls: seq<PipelineCall>)
    requires ValidBook(b.ledger)
    decreases |calls|
  {
    calls != [] ==> !EchoBooked(b, calls[0]) && NoEchoes(c, PipelineStep(c, b, calls[0]).0, calls[1..])
  }

  /** Every call brings an id that is not in the store and not brought by an earlier call. */
  predicate FreshIds(orders: Store, calls: seq<PipelineCall>) {
    && (forall i :: 0 <= i < |calls| ==> calls[i].id !in orders)
    && (forall i, j :: 0 <= i < j < |calls| ==> calls[i].id != calls[j].id)
  }

  /** Fresh ids are enough, though not needed: a call about an open order is delivered and booked like a new one. */
  lemma {:induction false} FreshIdsNeverEcho(c: Rates, b: Books, calls: seq<PipelineCall>)
    requires 0.0 <= c.slippageBps < 10000.0
    requires ValidStore(b.desk.orders) && ValidBook(b.ledger) && Agree(b.desk.account, b.ledger)
    requires FreshIds(b.desk.orders, calls)
    ensures NoEchoes(c, b, calls)
    decreases |calls|
  {
    hide PipelineStep, ValidStore, ValidBook, Agree;
    if calls != [] {
      FreshIsNoEcho(b, calls[0]);
      hide EchoBooked;
      StepTracks(c, b, calls[0], map[]);
      assert forall i :: 0 <= i < |calls[1..]| ==> calls[1..][i] == calls[i + 1];
      FreshIdsNeverEcho(c, PipelineStep(c, b, calls[0]).0, calls[1..]);
    }
  }

  lemma FreshIsNoEcho(b: Books, call: PipelineCall)
    requires call.id !in b.desk.orders
    ensures !EchoBooked(b, call)
  {
    hide Approval;
  }

  /** Account and ledger agree after every call of the run. */
  ghost predicate AgreeThroughout(c: Rates, b: Books, calls: seq<PipelineCall>)
    requires ValidBook(b.ledger)
    decreases |calls|
  {
    && Agree(b.desk.account, b.ledger)
    && (calls != [] ==> AgreeThroughout(c, PipelineStep(c, b, calls[0]).0, calls[1..]))
  }

  /** Over any run, account and ledger agree after every call if and only if no call books an echo. */
  lemma {:induction false} AgreementCriterion(c: Rates, b: Books, calls: seq<PipelineCall>)
    requires 0.0 <= c.slippageBps < 10000.0
    requires ValidStore(b.desk.orders) && ValidBook(b.ledger) && Agree(b.desk.account, b.ledger)
    ensures AgreeThroughout(c, b, calls) <==> NoEchoes(c, b, calls)
    decreases |calls|
  {
    hide PipelineStep, EchoBooked, Agree, ValidStore, ValidBook;
    if calls != [] {
      AgreementAfterCall(c, b, calls[0]);
      if !EchoBooked(b, calls[0]) {
        StepTracks(c, b, calls[0], map[]);
        AgreementCriterion(c, PipelineStep(c, b, calls[0]).0, calls[1..]);
      }
    }
  }

  /**
   * Over any run that books no echo, with slippage below 100%, the ledger holds exactly what the account holds, and for
   * any marks the account's equity change differs from the ledger's P&L change less fees and taxes by less than a cent
   * per executed trade.
   */
  lemma {:induction false} LedgerTracksAccount(c: Rates, b: Books, calls: seq<PipelineCall>, marks: Prices)
    requires 0.0 <= c.slippageBps < 10000.0
    requires ValidStore(b.desk.orders) && ValidBook(b.ledger) && Agree(b.desk.account, b.ledger)
    requires NoEchoes(c, b, calls)
    ensures var end, n := AfterRun(c, b, calls), TradeCount(c, b, calls);
            var drift := EquityOf(end.desk.account, marks) - EquityOf(b.desk.account, marks)
                         - (LedgerPnl(end.ledger, marks) - LedgerPnl(b.ledger, marks) - ChargesPaid(c, b, calls));
            && ValidBook(end.ledger) && Agree(end.desk.account, end.ledger)
            && (n == 0 ==> drift == 0.0)
            && (n > 0 ==> -0.01 * n as real < drift < 0.01 * n as real)
    decreases |calls|
  {
    hide PipelineStep, EchoBooked, ValidStore, ValidBook, Agree, EquityOf, LedgerPnl;
    if calls != [] {
      StepTracks(c, b, calls[0], marks);
      LedgerTracksAccount(c, PipelineStep(c, b, calls[0]).0, calls[1..], marks);
    }
  }

  // ----- Full slippage

  const OPEN_GATE := Gate(Limits(1.0, 1.0, 1.0, 1.0, 1.0, 0.0), false, 0.0)

  function SellOne(): (r: PipelineCall) {
    PipelineCall(OPEN_GATE, PaperSandbox, Some(Sell), "A", 1.0, 1.0, "sell")
  }

  function OneShare(): (r: Books) {
    Books(Desk(Account(0.0, map["A" := 1.0]), map[]), map["A" := Position(1.0, 1.0, 0.0)])
  }

  /** At 100% slippage a SELL fills at no price: the account delivers, the ledger refuses the fill. */
  lemma FullSlippageDrifts(c: Rates)
    requires 10000.0 <= c.slippageBps && 0.0 < c.maxFillRatio <= 1.0
    ensures var b, next := OneShare(), PipelineStep(c, OneShare(), SellOne()).0;
            && Agree(b.desk.account, b.ledger)
            && Held(next.desk.account, "A") < 1.0 && PositionIn(next.ledger, "A").quantity == 1.0
  {
    var b, o := OneShare(), CallOrder(SellOne());
    assert Approval(OPEN_GATE, b.desk.account, o, 1.0, None) == Approved by {
      hide Executed, Gross, Fee, Tax;
      assert Product(1.0, 1.0) == 1.0 && Product(0.0, 1.0) == 0.0;
    }
    GatewayExecution(c, PaperSandbox, b.desk, o, 1.0);
    assert FillPrice(c, Sell, 1.0) <= 0.0;
    FullSlippageFill(c, b.desk, o);
    hide Executed, Approval, FillPrice, Traded, Covered, Gross, Fee, Tax;
  }

  lemma FullSlippageFill(c: Rates, d: Desk, o: Order)
    requires 10000.0 <= c.slippageBps && 0.0 < c.maxFillRatio <= 1.0
    requires d == OneShare().desk && o == CallOrder(SellOne())
    ensures var (after, r) := Executed(c, PaperSandbox, d, o, 1.0, None);
            && r.Ok? && 0.0 < r.value.quantity && r.value.price <= 0.0 && Held(after.account, "A") < 1.0
  {
    hide Gross, Fee, Tax;
    assert FillQuantity(c, 1.0, None) == c.maxFillRatio;
  }

  /**
   * Exactly the engines with slippage below 100% keep ledger and account in agreement on every call that books no echo.
   */
  lemma AgreementCondition(c: Rates)
    requires 0.0 <= c.slippageBps && 0.0 < c.maxFillRatio <= 1.0
    ensures c.slippageBps < 10000.0 <==>
            forall b: Books, call: PipelineCall ::
              ValidStore(b.desk.orders) && ValidBook(b.ledger) && Agree(b.desk.account, b.ledger)
                && !EchoBooked(b, call)
              ==> Agree(PipelineStep(c, b, call).0.desk.account, PipelineStep(c, b, call).0.ledger)
  {
    if c.slippageBps < 10000.0 {
      forall b: Books, call: PipelineCall
        | ValidStore(b.desk.orders) && ValidBook(b.ledger) && Agree(b.desk.account, b.ledger) && !EchoBooked(b, call)
        ensures Agree(PipelineStep(c, b, call).0.desk.account, PipelineStep(c, b, call).0.ledger)
      {
        StepTracks(c, b, call, map[]);
      }
    } else {
      hide PipelineStep;
      FullSlippageDrifts(c);
      FreshIsNoEcho(OneShare(), SellOne());
      hide EchoBooked;
      var next := PipelineStep(c, OneShare(), SellOne()).0;
      assert Held(next.desk.account, "A") != PositionIn(next.ledger, "A").quantity;
      assert !Agree(next.desk.account, next.ledger);
    }
  }

  function Completed(): (r: Books) {
    Books(Desk(Account(10.0, map["A" := 1.0]), map["buy" := OrderRecord("buy", "A", Buy, 1.0, 1.0, Filled)]),
          map["A" := Position(1.0, 1.0, 0.0)])
  }

  function BuyAgain(): (r: PipelineCall) {
    PipelineCall(Gate(Limits(1.0, 2.0, 1.0, 1.0, 1.0, 0.0), false, 0.0), PaperSandbox, Some(Buy), "A", 1.0, 1.0, "buy")
  }

  lemma BuyAgainApproved()
    ensures Approval(BuyAgain().gate, Completed().desk.account, CallOrder(BuyAgain()), 1.0, None) == Approved
  {
    hide Product;
    ProductOne(1.0);
    ProductOne(2.0);
  }

  lemma BuyAgainEchoed(c: Rates)
    ensures Executed(c, PaperSandbox, Completed().desk, CallOrder(BuyAgain()), 1.0, None)
            == (Completed().desk, Ok(Fill("buy", "A", Buy, 1.0, 1.0, 0.0, 0.0, Filled)))
  {
    hide Delivered;
  }

  /**
   * A concrete one: a call that repeats a completed order's id is echoed as filled, and the purchase is booked again.
   */
  lemma RepeatedIdIsBookedTwice(c: Rates)
    ensures var b, next := Completed(), PipelineStep(c, Completed(), BuyAgain()).0;
            && ValidStore(b.desk.orders) && Agree(b.desk.account, b.ledger) && EchoBooked(b, BuyAgain())
            && next.desk == b.desk && PositionIn(next.ledger, "A").quantity == 2.0
  {
    hide Approval, Executed, Applied, PnlOf;
    BuyAgainApproved();
    BuyAgainEchoed(c);
  }
}
