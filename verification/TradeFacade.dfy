/** From a recommended row to an order: sizing, revalidation, preflight and paper submission (`trade_facade.py`). */
module TradeFacade {
  import opened Base
  import opened Money
  import opened Orders
  import opened Execution
  import opened Equity
  import opened Risk
  import opened ContextBuilder

  /** A row of a recommended portfolio; no weight when the field is not a number. */
  datatype Row = Row(symbol: string, targetWeight: Option<real>, selected: bool)

  datatype Intent = Intent(symbol: string, side: Side, quantity: real, orderType: OrderType, limitPrice: Option<real>)

  datatype RowError =
    | BlankSymbol | MissingLatestPrice | NonPositiveLatestPrice | ContextRefused
    | InvalidArguments | NotANumber | OutOfRange

  function Lots(accountValue: real, weight: real, price: real, lot: real): (r: int)
    requires price != 0.0 && lot != 0.0
  {
    (accountValue * weight / price / lot).Floor
  }

  function TargetQuantity(accountValue: real, weight: real, price: real, lot: real): (r: real)
    requires price != 0.0 && lot != 0.0
  {
    Product(Lots(accountValue, weight, price, lot) as real, lot)
  }

  /** `intent_from_portfolio_row`; no intent when the position is already on target. */
  function Sized(
    symbol: string, targetWeight: Option<real>, price: real, accountValue: real, current: real,
    orderType: OrderType, lot: real): (r: Result<Option<Intent>, RowError>)
  {
    if symbol == "" || accountValue <= 0.0 || current < 0.0 || lot <= 0.0 then Err(InvalidArguments)
    else if targetWeight.None? then Err(NotANumber)
    else if targetWeight.value < 0.0 || targetWeight.value > 1.0 || price <= 0.0 then Err(OutOfRange)
    else
      var delta := TargetQuantity(accountValue, targetWeight.value, price, lot) - current;
      if delta == 0.0 then Ok(None)
      else Ok(Some(Intent(symbol, if delta > 0.0 then Buy else Sell, if delta > 0.0 then delta else -delta,
                          orderType, if orderType == Limit then Some(price) else None)))
  }

  function OrderFor(intent: Intent, id: string): (r: Order) {
    Order(intent.symbol, intent.side, intent.quantity, intent.orderType, intent.limitPrice, id)
  }

  /** The latest context, the order it calls for, and what the risk gate says of that order. */
  datatype Revalidation = Revalidation(context: RiskContext, intent: Option<Intent>, verdict: Verdict)

  ghost function Revalidated(
    g: Gate, a: Account, row: Row, prices: Prices, markets: Markets, orderType: OrderType, lot: real)
    : (r: Result<Revalidation, RowError>)
  {
    var symbol := Strip(row.symbol);
    if symbol == "" then Err(BlankSymbol)
    else if symbol !in prices then Err(MissingLatestPrice)
    else if prices[symbol] <= 0.0 then Err(NonPositiveLatestPrice)
    else
      match ContextOf(a, prices, markets, symbol)
      case None => Err(ContextRefused)
      case Some(ctx) =>
        match Sized(symbol, row.targetWeight, prices[symbol], ctx.accountValue, Held(a, symbol), orderType, lot)
        case Err(error) => Err(error)
        case Ok(None) => Ok(Revalidation(ctx, None, Approved))
        case Ok(Some(intent)) =>
          Ok(Revalidation(ctx, Some(intent), PortfolioApproval(g, a, OrderFor(intent, ""), prices[symbol], ctx)))
  }

  datatype Submission =
    | NothingToDo | RowRefused(error: RowError) | RiskRefused(reason: RiskError)
    | Sent(result: Result<Fill, Error>) | SentLive

  /** `submit_portfolio_row_revalidated` on the paper path, with the client order id the facade makes up. */
  ghost function SubmittedRow(
    c: Rates, g: Gate, mode: Mode, d: Desk, row: Row, prices: Prices, markets: Markets, orderType: OrderType, lot: real,
    id: string): (r: (Desk, Submission))
  {
    match Revalidated(g, d.account, row, prices, markets, orderType, lot)
    case Err(error) => (d, RowRefused(error))
    case Ok(Revalidation(_, None, _)) => (d, NothingToDo)
    case Ok(Revalidation(_, Some(intent), Denied(reason))) => (d, RiskRefused(reason))
    case Ok(Revalidation(_, Some(intent), Approved)) =>
      if mode == RealLive then (d, SentLive)
      else
        var (after, result) := Executed(c, mode, d, OrderFor(intent, id), GetOr(prices, intent.symbol, 0.0), None);
        (after, Sent(result))
  }

  /** What a batch row comes to before anything is submitted. */
  datatype Check = Skipped | Passed(revalidation: Revalidation) | Failed

  ghost function Checked(
    g: Gate, a: Account, row: Row, prices: Prices, markets: Markets, orderType: OrderType, lot: real): (r: Check)
  {
    var r := Revalidated(g, a, row, prices, markets, orderType, lot);
    if !row.selected then Skipped
    else if r.Err? then Failed
    else if r.value.intent.None? then Skipped
    else if r.value.verdict.Denied? then Failed
    else Passed(r.value)
  }

  /** The checks of all rows, in order, all against the same account. */
  ghost function PassedRows(
    g: Gate, a: Account, rows: seq<Row>, prices: Prices, markets: Markets, orderType: OrderType,
    lot: real): (r: seq<Revalidation>)
  {
    if rows == [] then []
    else
      var last := Checked(g, a, rows[|rows| - 1], prices, markets, orderType, lot);
      PassedRows(g, a, rows[..|rows| - 1], prices, markets, orderType, lot)
      + (if last.Passed? then [last.revalidation] else [])
  }

  ghost function FailedRows(
    g: Gate, a: Account, rows: seq<Row>, prices: Prices, markets: Markets, orderType: OrderType,
    lot: real): (r: seq<Row>)
  {
    if rows == [] then []
    else
      FailedRows(g, a, rows[..|rows| - 1], prices, markets, orderType, lot)
      + (if Checked(g, a, rows[|rows| - 1], prices, markets, orderType, lot).Failed? then [rows[|rows| - 1]] else [])
  }

  class InternalTradeFacade {
    const risk: RiskGuardian
    const gateway: ExecutionGateway

    constructor (risk: RiskGuardian, gateway: ExecutionGateway)
      requires risk.account == gateway.paper.account
      ensures this.risk == risk && this.gateway == gateway
    {
      this.risk, this.gateway := risk, gateway;
    }

    /** The gate and the engine look at the same account. */
    predicate OneAccount() {
      risk.account == gateway.paper.account
    }

    method RevalidateRow(row: Row, prices: Prices, markets: Markets, orderType: OrderType, lot: real)
      returns (r: Result<Revalidation, RowError>)
      requires OneAccount()
      ensures r == Revalidated(risk.Value(), gateway.Value().account, row, prices, markets, orderType, lot)
    {
      hide ContextOf, Sized, PortfolioApproval, Strip;
      var account := gateway.paper.account;
      var symbol := Strip(row.symbol);
      if symbol == "" {
        return Err(BlankSymbol);
      }
      if symbol !in prices {
        return Err(MissingLatestPrice);
      }
      var latest := prices[symbol];
      if latest <= 0.0 {
        return Err(NonPositiveLatestPrice);
      }
      var snapshot := ContextBuilder.Build(account, prices, markets, symbol);
      if snapshot.Err? {
        return Err(ContextRefused);
      }
      var context := snapshot.value.context;
      var sized := Sized(symbol, row.targetWeight, latest, context.accountValue, GetOr(account.positions, symbol, 0.0),
                         orderType, lot);
      if sized.Err? {
        return Err(sized.error);
      }
      if sized.value.None? {
        return Ok(Revalidation(context, None, Approved));
      }
      var verdict := risk.ApprovePortfolio(OrderFor(sized.value.value, ""), latest, context);
      r := Ok(Revalidation(context, sized.value, verdict));
    }

    /** Revalidates every selected row against the same account; nothing is submitted. */
    method Preflight(rows: seq<Row>, prices: Prices, markets: Markets, orderType: OrderType, lot: real)
      returns (approved: seq<Revalidation>, rejected: seq<Row>)
      requires OneAccount()
      ensures approved == PassedRows(risk.Value(), gateway.Value().account, rows, prices, markets, orderType, lot)
      ensures rejected == FailedRows(risk.Value(), gateway.Value().account, rows, prices, markets, orderType, lot)
    {
      hide Revalidated;
      approved, rejected := [], [];
      for i := 0 to |rows|
        invariant approved == PassedRows(risk.Value(), gateway.Value().account, rows[..i], prices, markets, orderType,
                                         lot)
        invariant rejected == FailedRows(risk.Value(), gateway.Value().account, rows[..i], prices, markets, orderType,
                                         lot)
      {
        assert rows[..i + 1][..i] == rows[..i];
        if rows[i].selected {
          var r := RevalidateRow(rows[i], prices, markets, orderType, lot);
          if r.Err? {
            rejected := rejected + [rows[i]];
          } else if r.value.intent.Some? {
            if r.value.verdict.Denied? {
              rejected := rejected + [rows[i]];
            } else {
              approved := approved + [r.value];
            }
          }
        }
      }
      assert rows[..|rows|] == rows;
    }

    method SubmitRow(
      mode: Mode, row: Row, prices: Prices, markets: Markets, orderType: OrderType, lot: real, id: string)
      returns (s: Submission)
      requires OneAccount()
      modifies gateway.paper.account, gateway.lifecycle
      ensures (gateway.Value(), s) ==
              SubmittedRow(gateway.paper.rates, risk.Value(), mode, old(gateway.Value()), row, prices, markets,
                           orderType, lot, id)
      ensures risk.Value() == old(risk.Value())
    {
      hide Revalidated, Executed;
      var r := RevalidateRow(row, prices, markets, orderType, lot);
      if r.Err? {
        return RowRefused(r.error);
      }
      if r.value.intent.None? {
        return NothingToDo;
      }
      if r.value.verdict.Denied? {
        return RiskRefused(r.value.verdict.reason);
      }
      if mode == RealLive {
        return SentLive;
      }
      var intent := r.value.intent.value;
      var result := gateway.Execute(mode, OrderFor(intent, id), GetOr(prices, intent.symbol, 0.0), None);
      s := Sent(result);
    }
  }
}
