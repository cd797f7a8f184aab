/** The paper account, the matching engine and the gateway in front of it (`execution.py`). */
module Execution {
  import opened Base
  import opened Money
  import opened Orders

  datatype OrderType = Market | Limit

  datatype Mode = PaperSandbox | VirtualBacktest | RealLive

  datatype Order = Order(
    symbol: string, side: Side, quantity: real, orderType: OrderType, limitPrice: Option<real>, clientOrderId: string)

  datatype Fill = Fill(
    orderId: string, symbol: string, side: Side, quantity: real, price: real, fee: real, tax: real, status: Status)

  datatype Error =
    | NonPositiveOrder | InvalidParameters | LimitPriceRequired | NotMarketable
    | InsufficientCash | InsufficientPosition
    | LiveRefused | MissingClientOrderId | IdReused | StoreRefused(reason: StoreError)

  /** What an account holds, as a value. */
  datatype Account = Account(cash: real, positions: map<string, real>)

  datatype Rates = Rates(fee: real, sellTax: real, slippageBps: real, maxFillRatio: real)

  function Held(a: Account, symbol: string): (r: real) {
    GetOr(a.positions, symbol, 0.0)
  }

  // ----- The matching engine on values

  /** The argument checks of `VirtualMatchingEngine.execute`, in their order. */
  function Refusal(c: Rates, o: Order, price: real): (r: Option<Error>) {
    if o.quantity <= 0.0 || price <= 0.0 then Some(NonPositiveOrder)
    else if c.slippageBps < 0.0 || c.maxFillRatio <= 0.0 || c.maxFillRatio > 1.0 then Some(InvalidParameters)
    else if o.orderType == Limit && o.limitPrice.None? then Some(LimitPriceRequired)
    else if o.orderType == Limit && o.side == Buy && price > o.limitPrice.value then Some(NotMarketable)
    else if o.orderType == Limit && o.side == Sell && price < o.limitPrice.value then Some(NotMarketable)
    else None
  }

  function FillQuantity(c: Rates, quantity: real, available: Option<real>): (r: real) {
    var wanted := quantity * c.maxFillRatio;
    if available.Some? && available.value < wanted then available.value else wanted
  }

  function FillPrice(c: Rates, side: Side, price: real): (r: real) {
    price * (if side == Buy then 1.0 + c.slippageBps / 10000.0 else 1.0 - c.slippageBps / 10000.0)
  }

  function Gross(c: Rates, side: Side, quantity: real, price: real): (r: real) {
    Cents(quantity, FillPrice(c, side, price))
  }

  function Fee(c: Rates, side: Side, quantity: real, price: real): (r: real) {
    Cents(Gross(c, side, quantity, price), c.fee)
  }

  function Tax(c: Rates, side: Side, quantity: real, price: real): (r: real) {
    if side == Sell then Cents(Gross(c, side, quantity, price), c.sellTax) else 0.0
  }

  /** What a fill does to the account. */
  function Traded(c: Rates, a: Account, symbol: string, side: Side, quantity: real, price: real): (r: Account) {
    var gross, fee, tax :=
      Gross(c, side, quantity, price), Fee(c, side, quantity, price), Tax(c, side, quantity, price);
    if side == Buy then
      Account(a.cash - (gross + fee), a.positions[symbol := Held(a, symbol) + quantity])
    else
      Account(a.cash + (gross - fee - tax), a.positions[symbol := Held(a, symbol) - quantity])
  }

  /** The account can pay for the fill, or deliver it. */
  predicate Covered(c: Rates, a: Account, symbol: string, side: Side, quantity: real, price: real) {
    if side == Buy then Gross(c, side, quantity, price) + Fee(c, side, quantity, price) <= a.cash
    else quantity <= Held(a, symbol)
  }

  function Matched(c: Rates, a: Account, o: Order, price: real, available: Option<real>)
    : (r: (Account, Result<Fill, Error>))
  {
    var refusal := Refusal(c, o, price);
    var quantity := FillQuantity(c, o.quantity, available);
    if refusal.Some? then (a, Err(refusal.value))
    else if quantity <= 0.0 then (a, Ok(Fill(o.clientOrderId, o.symbol, o.side, 0.0, price, 0.0, 0.0, Rejected)))
    else if !Covered(c, a, o.symbol, o.side, quantity, price) then
      (a, Err(if o.side == Buy then InsufficientCash else InsufficientPosition))
    else
      (Traded(c, a, o.symbol, o.side, quantity, price),
       Ok(Fill(o.clientOrderId, o.symbol, o.side, quantity, FillPrice(c, o.side, price),
               Fee(c, o.side, quantity, price), Tax(c, o.side, quantity, price),
               if quantity == o.quantity then Filled else PartiallyFilled)))
  }

  // ----- The gateway on values

  /** The account together with the order store. */
  datatype Desk = Desk(account: Account, orders: Store)

  /** The reply for an order that has nothing left to execute: no trade, the stored quantity and status. */
  function Echo(o: Order, existing: OrderRecord, price: real): (r: Fill) {
    Fill(o.clientOrderId, o.symbol, o.side, existing.filled, price, 0.0, 0.0, existing.status)
  }

  /** Hand the effective order to the engine, then record its outcome in the store. */
  function Delivered(c: Rates, d: Desk, o: Order, price: real, available: Option<real>)
    : (r: (Desk, Result<Fill, Error>))
  {
    var (account, matched) := Matched(c, d.account, o, price, available);
    if matched.Err? then (Desk(account, d.orders), matched)
    else if matched.value.quantity > 0.0 then
      var (orders, recorded) := AfterFill(d.orders, o.clientOrderId, matched.value.quantity);
      if recorded.Err? then (Desk(account, orders), Err(StoreRefused(recorded.error)))
      else if recorded.value.status == Filled && matched.value.status != Filled then
        (Desk(account, orders), Ok(matched.value.(status := Filled)))
      else (Desk(account, orders), matched)
    else
      var (orders, recorded) := AfterCancel(d.orders, o.clientOrderId);
      (Desk(account, orders), if recorded.Err? then Err(StoreRefused(recorded.error)) else matched)
  }

  /** What the gateway decides before it calls the engine. */
  datatype Admission =
    | Refused(error: Error)
    | Settled(fill: Fill)
    | Admitted(desk: Desk, effective: Order)

  function Admit(mode: Mode, d: Desk, o: Order, price: real): (r: Admission) {
    if mode == RealLive then Refused(LiveRefused)
    else if o.clientOrderId == "" then Refused(MissingClientOrderId)
    else if o.clientOrderId !in d.orders then
      var submitted := Fresh(o.clientOrderId, o.symbol, o.side, o.quantity);
      Admitted(d.(orders := d.orders[o.clientOrderId := submitted]), o)
    else
      var existing := d.orders[o.clientOrderId];
      var remaining := o.quantity - existing.filled;
      if existing.symbol != o.symbol || existing.side != o.side || existing.quantity != o.quantity
        then Refused(IdReused)
      else if Terminal(existing.status) || remaining <= 0.0 then Settled(Echo(o, existing, price))
      else Admitted(d, o.(quantity := remaining))
  }

  function Executed(c: Rates, mode: Mode, d: Desk, o: Order, price: real, available: Option<real>)
    : (r: (Desk, Result<Fill, Error>))
  {
    match Admit(mode, d, o, price)
    case Refused(error) => (d, Err(error))
    case Settled(fill) => (d, Ok(fill))
    case Admitted(desk, effective) => Delivered(c, desk, effective, price, available)
  }

  // ----- The objects

  class PaperAccount {
    var cash: real
    var positions: map<string, real>

    constructor (cash: real)
      ensures Value() == Account(cash, map[])
    {
      this.cash, positions := cash, map[];
    }

    function Value(): (r: Account)
      reads this
    {
      Account(cash, positions)
    }
  }

  class VirtualMatchingEngine {
    const account: PaperAccount
    const rates: Rates

    constructor (account: PaperAccount, rates: Rates)
      ensures this.account == account && this.rates == rates
    {
      this.account, this.rates := account, rates;
    }

    method Execute(order: Order, marketPrice: real, available: Option<real>) returns (r: Result<Fill, Error>)
      modifies account
      ensures (account.Value(), r) == Matched(rates, old(account.Value()), order, marketPrice, available)
    {
      if order.quantity <= 0.0 || marketPrice <= 0.0 {
        return Err(NonPositiveOrder);
      }
      if rates.slippageBps < 0.0 || rates.maxFillRatio <= 0.0 || rates.maxFillRatio > 1.0 {
        return Err(InvalidParameters);
      }
      if order.orderType == Limit {
        if order.limitPrice.None? {
          return Err(LimitPriceRequired);
        }
        if order.side == Buy && marketPrice > order.limitPrice.value {
          return Err(NotMarketable);
        }
        if order.side == Sell && marketPrice < order.limitPrice.value {
          return Err(NotMarketable);
        }
      }
      var fillQty := FillQuantity(rates, order.quantity, available);
      if fillQty <= 0.0 {
        return Ok(Fill(order.clientOrderId, order.symbol, order.side, 0.0, marketPrice, 0.0, 0.0, Rejected));
      }
      var fillPrice := FillPrice(rates, order.side, marketPrice);
      var gross := Gross(rates, order.side, fillQty, marketPrice);
      var fee := Fee(rates, order.side, fillQty, marketPrice);
      var tax := Tax(rates, order.side, fillQty, marketPrice);
      var position := GetOr(account.positions, order.symbol, 0.0);
      if order.side == Buy {
        var total := gross + fee;
        if account.cash < total {
          return Err(InsufficientCash);
        }
        account.cash := account.cash - total;
        account.positions := account.positions[order.symbol := position + fillQty];
      } else {
        if position < fillQty {
          return Err(InsufficientPosition);
        }
        account.positions := account.positions[order.symbol := position - fillQty];
        account.cash := account.cash + (gross - fee - tax);
      }
      var status := if fillQty == order.quantity then Filled else PartiallyFilled;
      r := Ok(Fill(order.clientOrderId, order.symbol, order.side, fillQty, fillPrice, fee, tax, status));
    }
  }

  class ExecutionGateway {
    const paper: VirtualMatchingEngine
    const lifecycle: OrderLifecycle

    constructor (paper: VirtualMatchingEngine, lifecycle: OrderLifecycle)
      ensures this.paper == paper && this.lifecycle == lifecycle
    {
      this.paper, this.lifecycle := paper, lifecycle;
    }

    function Value(): (r: Desk)
      reads paper.account, lifecycle
    {
      Desk(paper.account.Value(), lifecycle.orders)
    }

    /** `mode` is what the environment controller reports at the time of the call. */
    method Execute(mode: Mode, order: Order, marketPrice: real, available: Option<real>)
      returns (r: Result<Fill, Error>)
      modifies paper.account, lifecycle
      ensures (Value(), r) == Executed(paper.rates, mode, old(Value()), order, marketPrice, available)
    {
      if mode != PaperSandbox && mode != VirtualBacktest {
        return Err(LiveRefused);
      }
      if order.clientOrderId == "" {
        return Err(MissingClientOrderId);
      }
      var effective := order;
      if order.clientOrderId in lifecycle.orders {
        var existing := lifecycle.orders[order.clientOrderId];
        if existing.symbol != order.symbol || existing.side != order.side || existing.quantity != order.quantity {
          return Err(IdReused);
        }
        if existing.status in {Filled, Canceled, Rejected} {
          return Ok(Echo(order, existing, marketPrice));
        }
        var remaining := order.quantity - existing.filled;
        if remaining <= 0.0 {
          return Ok(Echo(order, existing, marketPrice));
        }
        effective := order.(quantity := remaining);
      } else {
        var submitted := lifecycle.Submit(Fresh(order.clientOrderId, order.symbol, order.side, order.quantity));
      }
      label Engine:
      r := paper.Execute(effective, marketPrice, available);
      if r.Err? {
        return;
      }
      if r.value.quantity > 0.0 {
        var updated := lifecycle.Fill(order.clientOrderId, r.value.quantity);
        if updated.Err? {
          return Err(StoreRefused(updated.error));
        }
        if updated.value.status == Filled && r.value.status != Filled {
          r := Ok(r.value.(status := Filled));
        }
      } else {
        var canceled := lifecycle.Cancel(order.clientOrderId);
        if canceled.Err? {
          return Err(StoreRefused(canceled.error));
        }
      }
    }

    method Cancel(clientOrderId: string) returns (r: Result<OrderRecord, StoreError>)
      modifies lifecycle
      ensures Value() == Desk(old(Value()).account, AfterCancel(old(Value()).orders, clientOrderId).0)
      ensures r == AfterCancel(old(Value()).orders, clientOrderId).1
    {
      r := lifecycle.Cancel(clientOrderId);
    }
  }
}
