/** Account equity at fixed market prices: what cent truncation can create, and what it cannot. */
module Equity {
  import opened Base
  import opened Money
  import opened Orders
  import opened Execution
  import opened GatewayRuns
  import opened Totals

  type Prices = map<string, real>

  function LineValue(quantity: real, symbol: string, prices: Prices): (r: real) {
    quantity * GetOr(prices, symbol, 0.0)
  }

  ghost function Worth(positions: map<string, real>, prices: Prices): (r: map<string, real>) {
    map s | s in positions :: LineValue(positions[s], s, prices)
  }

  ghost function MarketValue(positions: map<string, real>, prices: Prices): (r: real) {
    Total(Worth(positions, prices))
  }

  ghost function EquityOf(a: Account, prices: Prices): (r: real) {
    a.cash + MarketValue(a.positions, prices)
  }

  /** `portfolio.snapshot`, visiting the positions in any order. */
  method Snapshot(account: PaperAccount, prices: Prices) returns (cash: real, marketValue: real, equity: real)
    ensures cash == account.cash
    ensures marketValue == MarketValue(account.positions, prices)
    ensures equity == EquityOf(account.Value(), prices)
  {
    hide LineValue;
    var todo := account.positions;
    marketValue := 0.0;
    while todo != map[]
      invariant todo.Keys <= account.positions.Keys
      invariant forall s :: s in todo ==> todo[s] == account.positions[s]
      invariant marketValue + MarketValue(todo, prices) == MarketValue(account.positions, prices)
      decreases |todo|
    {
      var symbol :| symbol in todo;
      RemoveShrinks(todo, symbol);
      TotalWithout(Worth(todo, prices), symbol);
      assert Worth(todo, prices) - {symbol} == Worth(todo - {symbol}, prices);
      marketValue := marketValue + LineValue(todo[symbol], symbol, prices);
      todo := todo - {symbol};
    }
    cash, equity := account.cash, account.cash + marketValue;
  }

  /** The premises the code leaves unchecked: non-negative charges that never exceed the proceeds. */
  predicate SoundRates(c: Rates) {
    0.0 <= c.fee && 0.0 <= c.sellTax && c.fee + c.sellTax <= 1.0 && 0.0 <= c.slippageBps <= 10000.0
  }

  predicate NonNegative(a: Account) {
    0.0 <= a.cash && forall s :: s in a.positions ==> 0.0 <= a.positions[s]
  }

  lemma ValueAfterUpdate(positions: map<string, real>, prices: Prices, symbol: string, delta: real)
    ensures MarketValue(positions[symbol := GetOr(positions, symbol, 0.0) + delta], prices) ==
            MarketValue(positions, prices) + LineValue(delta, symbol, prices)
  {
    var before := GetOr(positions, symbol, 0.0);
    LineSum(before, delta, symbol, prices);
    hide LineValue;
    var value := LineValue(before + delta, symbol, prices);
    TotalUpdate(Worth(positions, prices), symbol, value);
    assert Worth(positions[symbol := before + delta], prices) == Worth(positions, prices)[symbol := value];
  }

  lemma LineSum(a: real, b: real, symbol: string, prices: Prices)
    ensures LineValue(a + b, symbol, prices) == LineValue(a, symbol, prices) + LineValue(b, symbol, prices)
    ensures LineValue(0.0, symbol, prices) == 0.0
    ensures LineValue(-b, symbol, prices) == -LineValue(b, symbol, prices)
  {
  }

  /** Bounds on the gross amount of a fill: within a cent of the exact amount, and slippage goes against the trader. */
  lemma GrossBounds(c: Rates, side: Side, quantity: real, price: real)
    requires 0.0 < quantity && 0.0 < price && 0.0 <= c.slippageBps <= 10000.0
    ensures var exact := Product(quantity, FillPrice(c, side, price));
            && 0.0 <= Gross(c, side, quantity, price) <= exact < Gross(c, side, quantity, price) + 0.01
            && (side == Buy ==> price <= FillPrice(c, side, price) && Product(quantity, price) <= exact)
            && (side == Sell ==> 0.0 <= FillPrice(c, side, price) <= price && exact <= Product(quantity, price))
  {
    hide FillPrice, Product, Gross;
    SlippedPrice(c, side, price);
    if side == Buy {
      SlippedAmount(quantity, price, FillPrice(c, side, price));
    } else {
      SlippedAmount(quantity, FillPrice(c, side, price), price);
    }
    GrossTruncates(c, side, quantity, price);
  }

  lemma SlippedAmount(quantity: real, low: real, high: real)
    requires 0.0 < quantity && 0.0 <= low <= high
    ensures 0.0 <= Product(quantity, low) <= Product(quantity, high)
  {
    hide Product;
    ProductBetween(low, quantity, 0.0, high);
    ProductZero(quantity);
    ProductOrder(quantity, low, 1.0);
    ProductOrder(quantity, high, 1.0);
  }

  lemma GrossTruncates(c: Rates, side: Side, quantity: real, price: real)
    requires 0.0 <= Product(quantity, FillPrice(c, side, price))
    ensures var exact := Product(quantity, FillPrice(c, side, price));
            0.0 <= Gross(c, side, quantity, price) <= exact < Gross(c, side, quantity, price) + 0.01
  {
    hide FillPrice, RoundDown;
  }

  lemma SlippedPrice(c: Rates, side: Side, price: real)
    requires 0.0 < price && 0.0 <= c.slippageBps <= 10000.0
    ensures side == Buy ==> price <= FillPrice(c, side, price)
    ensures side == Sell ==> 0.0 <= FillPrice(c, side, price) <= price
  {
    var factor := if side == Buy then 1.0 + c.slippageBps / 10000.0 else 1.0 - c.slippageBps / 10000.0;
    assert FillPrice(c, side, price) == price * factor;
    if side == Buy {
      MulMonotone(1.0, factor, price);
    } else {
      MulMonotone(0.0, factor, price);
      MulMonotone(factor, 1.0, price);
    }
  }

  /** Fee and tax together never exceed the proceeds they are taken from. */
  lemma ChargesBounded(gross: real, fee: real, tax: real)
    requires 0.0 <= gross && 0.0 <= fee && 0.0 <= tax && fee + tax <= 1.0
    ensures 0.0 <= Cents(gross, fee) && 0.0 <= Cents(gross, tax)
    ensures Cents(gross, fee) + Cents(gross, tax) <= gross
  {
    hide RoundDown;
    var f, t := gross * fee, gross * tax;
    assert 0.0 <= f by { MulMonotone(0.0, fee, gross); }
    assert 0.0 <= t by { MulMonotone(0.0, tax, gross); }
    assert f + t <= gross by {
      MulMonotone(fee + tax, 1.0, gross);
      assert (fee + tax) * gross == f + t;
    }
    assert RoundDown(f) <= f && RoundDown(t) <= t;
  }

  lemma ChargesOf(c: Rates, side: Side, quantity: real, price: real)
    requires SoundRates(c) && 0.0 < quantity && 0.0 < price
    ensures 0.0 <= Gross(c, side, quantity, price)
    ensures 0.0 <= Fee(c, side, quantity, price) && 0.0 <= Tax(c, side, quantity, price)
    ensures Fee(c, side, quantity, price) + Tax(c, side, quantity, price) <= Gross(c, side, quantity, price)
  {
    hide Gross, Cents, FillPrice;
    GrossBounds(c, side, quantity, price);
    ChargesBounded(Gross(c, side, quantity, price), c.fee, c.sellTax);
  }

  /** One fill: a BUY gains less than a cent, a SELL gains nothing, and nothing turns negative. */
  lemma TradeEquity(c: Rates, a: Account, symbol: string, side: Side, quantity: real, price: real, prices: Prices)
    requires SoundRates(c) && NonNegative(a) && 0.0 < quantity && 0.0 < price
    requires price == GetOr(prices, symbol, 0.0)
    requires Covered(c, a, symbol, side, quantity, price)
    ensures var after := Traded(c, a, symbol, side, quantity, price);
            && NonNegative(after)
            && (side == Buy ==> EquityOf(after, prices) < EquityOf(a, prices) + 0.01)
            && (side == Sell ==> EquityOf(after, prices) <= EquityOf(a, prices))
  {
    hide Gross, Cents, FillPrice, Traded, EquityOf, Covered, NonNegative;
    TradeStaysNonNegative(c, a, symbol, side, quantity, price);
    TradeMovesEquity(c, a, symbol, side, quantity, price, prices);
    GrossBounds(c, side, quantity, price);
    ChargesOf(c, side, quantity, price);
  }

  /** Equity moves by what the fill is worth at market less what was paid, or the reverse. */
  lemma TradeMovesEquity(c: Rates, a: Account, symbol: string, side: Side, quantity: real, price: real, prices: Prices)
    ensures var value := LineValue(quantity, symbol, prices);
            var gross, fee := Gross(c, side, quantity, price), Fee(c, side, quantity, price);
            EquityOf(Traded(c, a, symbol, side, quantity, price), prices) ==
            EquityOf(a, prices)
            + (if side == Buy then value - gross - fee else gross - fee - Tax(c, side, quantity, price) - value)
  {
    hide Gross, Fee, Tax, LineValue, MarketValue;
    ValueAfterUpdate(a.positions, prices, symbol, if side == Buy then quantity else -quantity);
    LineSum(0.0, quantity, symbol, prices);
    assert Held(a, symbol) + -quantity == Held(a, symbol) - quantity;
  }

  lemma TradeStaysNonNegative(c: Rates, a: Account, symbol: string, side: Side, quantity: real, price: real)
    requires SoundRates(c) && NonNegative(a) && 0.0 < quantity && 0.0 < price
    requires Covered(c, a, symbol, side, quantity, price)
    ensures NonNegative(Traded(c, a, symbol, side, quantity, price))
  {
    hide Gross, Fee, Tax;
    ChargesOf(c, side, quantity, price);
  }

  /** Number of fills of one side in a run. */
  function Fills(c: Rates, d: Desk, es: seq<Event>, side: Side): (r: nat)
    decreases |es|
  {
    if es == [] then 0
    else (if Trades(c, d, es[0]) && es[0].order.side == side then 1 else 0) + Fills(c, Next(c, d, es[0]), es[1..], side)
  }

  /** Every call quotes the same price for the same symbol. */
  predicate FixedPrices(es: seq<Event>, prices: Prices) {
    forall i :: 0 <= i < |es| && es[i].Call? ==> es[i].price == GetOr(prices, es[i].order.symbol, 0.0)
  }

  /**
   * Over any run of gateway calls at fixed market prices, equity grows by less than a cent per BUY fill and
   * not at all on SELL fills, and cash and positions never go negative.
   */
  lemma {:induction false} EquityGrowthBounded(c: Rates, d: Desk, es: seq<Event>, prices: Prices)
    requires SoundRates(c) && ValidStore(d.orders) && NonNegative(d.account) && FixedPrices(es, prices)
    ensures var end, buys := Run(c, d, es), Fills(c, d, es, Buy);
            && NonNegative(end.account)
            && (buys == 0 ==> EquityOf(end.account, prices) <= EquityOf(d.account, prices))
            && (buys > 0 ==> EquityOf(end.account, prices) < EquityOf(d.account, prices) + 0.01 * buys as real)
    decreases |es|
  {
    hide Next, ValidStore, Traded, EquityOf;
    if es != [] {
      var next := Next(c, d, es[0]);
      assert FixedPrices(es[1..], prices);
      StepShape(c, d, es[0]);
      if Trades(c, d, es[0]) {
        var o, q := es[0].order, TradedQuantity(c, d, es[0]);
        TradeEquity(c, d.account, o.symbol, o.side, q, es[0].price, prices);
      }
      EquityGrowthBounded(c, next, es[1..], prices);
    }
  }

  // ----- The bound cannot be improved

  const DUST: string := "DUST"

  function Costless(): (r: Rates) {
    Rates(0.0, 0.0, 0.0, 1.0)
  }

  /** `n` orders, each buying one share at a price below one cent; the ids are of increasing length. */
  function DustBuys(n: nat, price: real): (r: seq<Event>) {
    if n == 0 then []
    else
      [Call(PaperSandbox, Order(DUST, Buy, 1.0, Market, None, seq(n, _ => 'x')), price, None)] + DustBuys(n - 1, price)
  }

  lemma DustBuy(d: Desk, id: string, price: real, prices: Prices)
    requires 0.0 < price < 0.01 && price == GetOr(prices, DUST, 0.0) && 0.0 <= d.account.cash
    requires id != "" && id !in d.orders
    ensures var e := Call(PaperSandbox, Order(DUST, Buy, 1.0, Market, None, id), price, None);
            var next := Next(Costless(), d, e);
            && next.account.cash == d.account.cash
            && EquityOf(next.account, prices) == EquityOf(d.account, prices) + price
            && next.orders.Keys == d.orders.Keys + {id}
            && Trades(Costless(), d, e)
  {
    assert FillPrice(Costless(), Buy, price) == price;
    assert Cents(1.0, price) == 0.0;
    assert Cents(0.0, 0.0) == 0.0;
    TradeMovesEquity(Costless(), d.account, DUST, Buy, 1.0, price, prices);
    hide EquityOf;
  }

  lemma FirstEvent(c: Rates, d: Desk, e: Event, es: seq<Event>, prices: Prices)
    ensures Run(c, d, [e] + es) == Run(c, Next(c, d, e), es)
    ensures Fills(c, d, [e] + es, Buy) ==
            (if Trades(c, d, e) && e.order.side == Buy then 1 else 0) + Fills(c, Next(c, d, e), es, Buy)
    ensures e.Call? && e.price == GetOr(prices, e.order.symbol, 0.0) && FixedPrices(es, prices) ==>
              FixedPrices([e] + es, prices)
  {
    assert ([e] + es)[1..] == es;
  }

  /**
   * For every price below one cent, n such orders cost nothing and grow equity by exactly n times that price:
   * no constant below 0.01 would do in EquityGrowthBounded.
   */
  lemma {:induction false} TruncationBoundIsTight(d: Desk, n: nat, price: real, prices: Prices)
    requires 0.0 < price < 0.01 && price == GetOr(prices, DUST, 0.0) && 0.0 <= d.account.cash
    requires forall id :: id in d.orders ==> |id| > n
    ensures var es := DustBuys(n, price);
            && FixedPrices(es, prices)
            && Fills(Costless(), d, es, Buy) == n
            && EquityOf(Run(Costless(), d, es).account, prices) == EquityOf(d.account, prices) + Times(price, n)
    decreases n
  {
    hide Next, Trades, EquityOf, Costless, GetOr, Times;
    if n > 0 {
      hide Run, Fills, FixedPrices;
      var id := seq(n, _ => 'x');
      var e := Call(PaperSandbox, Order(DUST, Buy, 1.0, Market, None, id), price, None);
      var next := Next(Costless(), d, e);
      DustBuy(d, id, price, prices);
      TruncationBoundIsTight(next, n - 1, price, prices);
      FirstEvent(Costless(), d, e, DustBuys(n - 1, price), prices);
      OneMore(price, n - 1);
    } else {
      OneMore(price, 0);
    }
  }
}
