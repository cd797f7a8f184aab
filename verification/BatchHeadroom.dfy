/**
 * When a batch whose preflight approves every row fills every order of it (`trade_facade.py`, `paper_execution.py`).
 */
module BatchHeadroom {
  import opened Base
  import opened Money
  import opened Orders
  import opened Execution
  import opened Equity
  import opened Risk
  import opened ContextBuilder
  import opened TradeFacade
  import opened Totals
  import opened TradingPipeline
  import opened PaperBatch
  import opened BatchAgreement
  import opened Exposure
  import opened Sizing

  // ----- What preflight leaves out of account

  function OrderOf(r: Revalidation): (o: Order)
    requires r.intent.Some?
  {
    OrderFor(r.intent.value, "")
  }

  /** A row that preflight approved. */
  ghost predicate ReadyRow(s: Session, a: Account, r: Revalidation, bySymbol: map<string, Row>) {
    && r.intent.Some? && r.verdict == Approved && r.intent.value.symbol in bySymbol
    && Revalidated(s.gate, a, bySymbol[r.intent.value.symbol], s.prices, s.markets, s.orderType, s.lot) == Ok(r)
  }

  predicate AllIntents(approved: seq<Revalidation>) {
    forall k :: 0 <= k < |approved| ==> approved[k].intent.Some?
  }

  /** An engine that fills whole orders. */
  predicate FillsWhole(s: Session) {
    SoundRates(s.rates) && s.rates.maxFillRatio == 1.0 && s.mode != RealLive
  }

  /** Rows about different symbols, each approved by preflight. */
  ghost predicate Ready(s: Session, a: Account, approved: seq<Revalidation>, bySymbol: map<string, Row>) {
    && FillsWhole(s) && AllIntents(approved) && DistinctSymbols(approved)
    && forall k :: 0 <= k < |approved| ==> ReadyRow(s, a, approved[k], bySymbol)
  }

  function ShiftOf(s: Session, r: Revalidation): (shift: real)
    requires r.intent.Some?
  {
    Shift(OrderOf(r), PriceOf(s, OrderOf(r)))
  }

  function FrictionOf(s: Session, r: Revalidation): (friction: real)
    requires r.intent.Some?
  {
    Friction(s.rates, OrderOf(r).side, OrderOf(r).quantity, PriceOf(s, OrderOf(r)))
  }

  /** What the first `n` orders add to the portfolio notional. */
  function Moved(s: Session, approved: seq<Revalidation>, n: nat): (total: real)
    requires n <= |approved| && AllIntents(approved)
  {
    if n == 0 then 0.0 else Moved(s, approved, n - 1) + ShiftOf(s, approved[n - 1])
  }

  /** What the first `n` orders add to the notional of one market. */
  function MovedIn(s: Session, approved: seq<Revalidation>, market: string, n: nat): (total: real)
    requires n <= |approved| && AllIntents(approved)
  {
    if n == 0 then 0.0
    else
      var last := approved[n - 1];
      MovedIn(s, approved, market, n - 1)
      + (if MarketOf(s.markets, last.intent.value.symbol) == market then ShiftOf(s, last) else 0.0)
  }

  /** What the first `n` orders cost in slippage, charges and truncation. */
  function Lost(s: Session, approved: seq<Revalidation>, n: nat): (total: real)
    requires n <= |approved| && AllIntents(approved)
  {
    if n == 0 then 0.0 else Lost(s, approved, n - 1) + FrictionOf(s, approved[n - 1])
  }

  /** The account value that is left for order `k`. */
  function ValueAt(s: Session, approved: seq<Revalidation>, k: nat): (value: real)
    requires k < |approved| && AllIntents(approved)
  {
    approved[k].context.accountValue - Lost(s, approved, k)
  }

  /** The cash that is left for order `k`. */
  function CashAt(s: Session, approved: seq<Revalidation>, k: nat): (cash: real)
    requires k < |approved| && AllIntents(approved)
  {
    ValueAt(s, approved, k) - approved[k].context.portfolioNotional - Moved(s, approved, k)
  }

  /** The target for `value` is still the largest lot multiple that fits `left`. */
  predicate StillFits(value: real, left: real, weight: real, price: real, lot: real)
    requires price != 0.0 && lot != 0.0
  {
    var target := TargetQuantity(value, weight, price, lot);
    Product(target, price) <= Product(left, weight) < Product(target + lot, price)
  }

  /** What the orders before it cost leaves the target of order `k` as it is. */
  predicate StaysSized(s: Session, approved: seq<Revalidation>, bySymbol: map<string, Row>, k: nat)
    requires k < |approved| && AllIntents(approved)
  {
    var symbol, price := OrderOf(approved[k]).symbol, PriceOf(s, OrderOf(approved[k]));
    && symbol in bySymbol && bySymbol[symbol].targetWeight.Some? && price != 0.0 && s.lot != 0.0
    && 0.0 < ValueAt(s, approved, k)
    && StillFits(approved[k].context.accountValue, ValueAt(s, approved, k), bySymbol[symbol].targetWeight.value, price,
                 s.lot)
  }

  /** The limits still leave room for order `k` after the orders before it. */
  predicate Room(s: Session, approved: seq<Revalidation>, k: nat)
    requires k < |approved| && AllIntents(approved)
  {
    var ctx, o, limits := approved[k].context, OrderOf(approved[k]), s.gate.limits;
    var value, moved, shift := ValueAt(s, approved, k), Moved(s, approved, k), ShiftOf(s, approved[k]);
    && 0.0 < value
    && (o.side == Buy ==> (CashAt(s, approved, k) - Notional(o, PriceOf(s, o))) / value > limits.minCashReserve)
    && (ctx.market != "" ==>
          (ctx.marketNotional + MovedIn(s, approved, ctx.market, k) + shift) / value < limits.maxMarketExposure)
    && ctx.portfolioNotional + moved + shift <= limits.maxPortfolioNotional
  }

  /** The cash that is left pays for order `k`, slippage and fee included. */
  predicate Payable(s: Session, approved: seq<Revalidation>, k: nat)
    requires k < |approved| && AllIntents(approved)
  {
    var o := OrderOf(approved[k]);
    o.side == Buy ==>
      Gross(s.rates, Buy, o.quantity, PriceOf(s, o)) + Fee(s.rates, Buy, o.quantity, PriceOf(s, o))
        <= CashAt(s, approved, k)
  }

  /** All of it is known from the preflight: the context of the order's own row, and the orders ahead of it. */
  predicate Fits(s: Session, approved: seq<Revalidation>, bySymbol: map<string, Row>, k: nat)
    requires k < |approved| && AllIntents(approved)
  {
    StaysSized(s, approved, bySymbol, k) && Room(s, approved, k) && Payable(s, approved, k)
  }

  predicate AllFit(s: Session, approved: seq<Revalidation>, bySymbol: map<string, Row>, n: nat)
    requires n <= |approved| && AllIntents(approved)
  {
    forall k :: 0 <= k < n ==> Fits(s, approved, bySymbol, k)
  }

  // ----- The state after the first n orders are filled whole

  ghost predicate AccountAt(s: Session, start: Account, a: Account, approved: seq<Revalidation>, n: nat)
    requires n <= |approved| && AllIntents(approved)
  {
    && 0.0 <= a.cash && Priced(a.positions, s.prices)
    && EquityOf(a, s.prices) == EquityOf(start, s.prices) - Lost(s, approved, n)
    && MarketValue(a.positions, s.prices) == MarketValue(start.positions, s.prices) + Moved(s, approved, n)
    && (forall m :: MarketNotional(a.positions, s.prices, s.markets, m)
                    == MarketNotional(start.positions, s.prices, s.markets, m) + MovedIn(s, approved, m, n))
    && (forall k :: 0 <= k < |approved| ==>
          Held(a, OrderOf(approved[k]).symbol)
          == Held(start, OrderOf(approved[k]).symbol) + (if k < n then Delta(OrderOf(approved[k])) else 0.0))
  }

  /** The fill is the whole of the order that was approved. */
  predicate FillsOrder(f: Fill, intent: Intent) {
    f.symbol == intent.symbol && f.side == intent.side && f.quantity == intent.quantity && f.status == Filled
  }

  /** The first `n` orders are filled whole, and nothing else. */
  predicate FilledSoFar(p: Progress, approved: seq<Revalidation>, n: nat)
    requires n <= |approved| && AllIntents(approved)
  {
    p.stop.None? && |p.fills| == n && forall k :: 0 <= k < n ==> FillsOrder(p.fills[k], approved[k].intent.value)
  }

  ghost function ContextAt(s: Session, approved: seq<Revalidation>, n: nat): (ctx: RiskContext)
    requires n < |approved| && AllIntents(approved)
  {
    var ctx := approved[n].context;
    RiskContext(ValueAt(s, approved, n), ctx.portfolioNotional + Moved(s, approved, n),
                if ctx.market == "" then 0.0 else ctx.marketNotional + MovedIn(s, approved, ctx.market, n), ctx.market)
  }

  /** The preflight's view of a ready row. */
  lemma ReadyUnfolded(s: Session, start: Account, r: Revalidation, bySymbol: map<string, Row>)
    requires ReadyRow(s, start, r, bySymbol)
    ensures var o := OrderOf(r);
            && o.symbol == Strip(bySymbol[o.symbol].symbol) != "" && o.symbol in s.prices
            && PriceOf(s, o) == s.prices[o.symbol] && 0.0 < s.prices[o.symbol]
            && ContextOf(start, s.prices, s.markets, o.symbol) == Some(r.context)
            && Sized(o.symbol, bySymbol[o.symbol].targetWeight, s.prices[o.symbol], r.context.accountValue,
                     Held(start, o.symbol), s.orderType, s.lot) == Ok(r.intent)
            && PortfolioApproval(s.gate, start, o, s.prices[o.symbol], r.context) == Approved
  {
    hide ContextOf, PortfolioApproval, TargetQuantity, Strip, Friction;
  }

  /** What being ready says of one row. */
  lemma ReadyAt(s: Session, start: Account, approved: seq<Revalidation>, bySymbol: map<string, Row>, n: nat)
    requires Ready(s, start, approved, bySymbol) && n < |approved|
    ensures ReadyRow(s, start, approved[n], bySymbol)
    ensures FillsWhole(s) && AllIntents(approved) && DistinctSymbols(approved)
  {
    hide ReadyRow, DistinctSymbols, AllIntents, FillsWhole;
  }

  /** The context of the next row, rebuilt from the account as it then is, if there is anything left. */
  lemma ContextNow(
    s: Session, start: Account, a: Account, approved: seq<Revalidation>, bySymbol: map<string, Row>, n: nat)
    requires Ready(s, start, approved, bySymbol) && n < |approved| && AccountAt(s, start, a, approved, n)
    ensures ContextOf(a, s.prices, s.markets, OrderOf(approved[n]).symbol)
            == if ValueAt(s, approved, n) <= 0.0 then None else Some(ContextAt(s, approved, n))
  {
    hide Ready, ReadyRow, EquityOf, MarketValue, MarketNotional, Moved, MovedIn, Lost, Priced, TargetMarket, Sized,
      PortfolioApproval, Held, Delta;
    ReadyAt(s, start, approved, bySymbol, n);
    ReadyUnfolded(s, start, approved[n], bySymbol);
  }

  // ----- Sizing the next row anew

  /**
   * The same row at another account value calls for the same order exactly when its target still fits, and else for
   * another.
   */
  lemma SizedAnew(
    symbol: string, weight: Option<real>, price: real, value: real, left: real, current: real, orderType: OrderType,
    lot: real, intent: Intent)
    requires Sized(symbol, weight, price, value, current, orderType, lot) == Ok(Some(intent)) && 0.0 < left
    ensures weight.Some? && 0.0 < price && 0.0 < lot
    ensures var again := Sized(symbol, weight, price, left, current, orderType, lot);
            && again.Ok?
            && (again.value == Some(intent) <==> StillFits(value, left, weight.value, price, lot))
            && (again.value.Some? && again.value.value.side == intent.side
                && again.value.value.quantity == intent.quantity ==>
                  again.value == Some(intent))
  {
    SameTarget(value, left, weight.value, price, lot);
    hide TargetQuantity, Product;
  }

  lemma RevalidatedNow(
    s: Session, start: Account, a: Account, approved: seq<Revalidation>, bySymbol: map<string, Row>, n: nat)
    requires Ready(s, start, approved, bySymbol) && n < |approved| && AccountAt(s, start, a, approved, n)
    ensures OrderOf(approved[n]).symbol in bySymbol
    ensures var o, ctx, intent := OrderOf(approved[n]), ContextAt(s, approved, n), approved[n].intent;
            var r := Revalidated(s.gate, a, bySymbol[o.symbol], s.prices, s.markets, s.orderType, s.lot);
            if ValueAt(s, approved, n) <= 0.0 then r == Err(ContextRefused)
            else if StaysSized(s, approved, bySymbol, n) then
              r == Ok(Revalidation(ctx, intent, PortfolioApproval(s.gate, a, o, PriceOf(s, o), ctx)))
            else
              && r.Ok?
              && (r.value.intent.Some? ==>
                    r.value.intent.value.side != intent.value.side
                      || r.value.intent.value.quantity != intent.value.quantity)
  {
    hide Ready, ReadyRow, ContextOf, PortfolioApproval, Sized, StillFits, Moved, MovedIn, Lost, Strip, EquityOf,
      MarketValue, MarketNotional, Priced;
    ReadyAt(s, start, approved, bySymbol, n);
    var o := OrderOf(approved[n]);
    assert o.symbol in bySymbol by { ReadyInside(s, start, approved[n], bySymbol); }
    ReadyUnfolded(s, start, approved[n], bySymbol);
    ContextNow(s, start, a, approved, bySymbol, n);
    assert Held(a, o.symbol) == Held(start, o.symbol);
    hide AccountAt;
    if 0.0 < ValueAt(s, approved, n) {
      SizedAnew(o.symbol, bySymbol[o.symbol].targetWeight, s.prices[o.symbol], approved[n].context.accountValue,
                ValueAt(s, approved, n), Held(a, o.symbol), s.orderType, s.lot, approved[n].intent.value);
    }
  }

  lemma ReadyInside(s: Session, start: Account, r: Revalidation, bySymbol: map<string, Row>)
    requires ReadyRow(s, start, r, bySymbol)
    ensures r.intent.Some? && OrderOf(r).symbol in bySymbol
  {
    hide Revalidated;
  }

  // ----- The verdict on the next row

  lemma {:induction false} MarketNonNegative(
    positions: map<string, real>, prices: Prices, markets: Markets, market: string)
    requires Priced(positions, prices)
    ensures 0.0 <= MarketNotional(positions, prices, markets, market)
    decreases |positions|
  {
    hide LineValue, Priced, MarketOf;
    if positions == map[] {
      assert WorthIn(positions, prices, markets, market) == map[];
    } else {
      var symbol :| symbol in positions;
      RemoveShrinks(positions, symbol);
      PricedWithout(positions, prices, symbol);
      MarketNonNegative(positions - {symbol}, prices, markets, market);
      MarketWithout(positions, prices, markets, market, symbol);
    }
  }

  lemma MarketWithout(positions: map<string, real>, prices: Prices, markets: Markets, market: string, symbol: string)
    requires symbol in positions
    ensures MarketNotional(positions, prices, markets, market)
            == MarketNotional(positions - {symbol}, prices, markets, market)
               + (if MarketOf(markets, symbol) == market then LineValue(positions[symbol], symbol, prices) else 0.0)
  {
    hide LineValue, MarketOf;
    TotalWithout(WorthIn(positions, prices, markets, market), symbol);
    assert WorthIn(positions, prices, markets, market) - {symbol}
        == WorthIn(positions - {symbol}, prices, markets, market);
  }

  /** An order that does not sell more than is held projects no negative notional. */
  lemma ProjectedNonNegative(c: Rates, a: Account, o: Order, prices: Prices, markets: Markets, market: string)
    requires o.symbol in prices && 0.0 < prices[o.symbol] && Priced(a.positions, prices) && 0.0 <= Projected(a, o)
    ensures 0.0 <= MarketValue(a.positions, prices) + Shift(o, prices[o.symbol])
    ensures MarketOf(markets, o.symbol) == market ==>
              0.0 <= MarketNotional(a.positions, prices, markets, market) + Shift(o, prices[o.symbol])
    ensures 0.0 <= MarketValue(a.positions, prices) && 0.0 <= MarketNotional(a.positions, prices, markets, market)
  {
    var after := AfterWhole(c, a, o, prices[o.symbol]);
    WholePositions(c, a, o, prices[o.symbol]);
    assert Priced(after.positions, prices) by { hide AfterWhole; }
    NotionalsAfterWhole(c, a, o, prices, markets, market);
    hide AfterWhole, Priced, MarketOf, Shift, MarketValue, MarketNotional;
    ValueNonNegative(after.positions, prices);
    ValueNonNegative(a.positions, prices);
    MarketNonNegative(after.positions, prices, markets, market);
    MarketNonNegative(a.positions, prices, markets, market);
  }

  /** What a context says of the account it is built from. */
  lemma ContextMeans(a: Account, prices: Prices, markets: Markets, symbol: string, ctx: RiskContext)
    requires ContextOf(a, prices, markets, symbol) == Some(ctx)
    ensures ctx.portfolioNotional == MarketValue(a.positions, prices) && ctx.accountValue > 0.0
    ensures a.cash == ctx.accountValue - ctx.portfolioNotional && Priced(a.positions, prices)
    ensures ctx.market != "" ==>
              && ctx.market == MarketOf(markets, symbol)
              && ctx.marketNotional == MarketNotional(a.positions, prices, markets, ctx.market)
    ensures ctx.market == "" ==> ctx.marketNotional == 0.0
  {
    hide Priced, MarketNotional, MarketValue, MarketOf;
    if ctx.market != "" {
      SameMarket(markets, symbol);
    }
  }

  /** Between two accounts that hold the same of the symbol, only the cash check of a BUY can differ. */
  lemma SameBaseChecks(g: Gate, start: Account, a: Account, o: Order, price: real, ctx: RiskContext, value: real)
    requires PortfolioApproval(g, start, o, price, ctx) == Approved
    requires Held(a, o.symbol) == Held(start, o.symbol) && 0.0 < value
    ensures 0.0 <= Projected(a, o) && 0.0 < o.quantity && (o.side == Sell ==> o.quantity <= Held(a, o.symbol))
    ensures Approval(g, a, o, price, Some(value)) == Approved <==>
            (o.side == Buy ==> (a.cash - Notional(o, price)) / value > g.limits.minCashReserve)
  {
    hide Notional, Product;
  }

  /** The gate approves the next row if and only if there is room for it. */
  lemma VerdictNow(
    s: Session, start: Account, a: Account, approved: seq<Revalidation>, bySymbol: map<string, Row>, n: nat)
    requires Ready(s, start, approved, bySymbol) && n < |approved| && AccountAt(s, start, a, approved, n)
    requires 0.0 < ValueAt(s, approved, n)
    ensures var o := OrderOf(approved[n]);
            PortfolioApproval(s.gate, a, o, PriceOf(s, o), ContextAt(s, approved, n)) == Approved <==>
            Room(s, approved, n)
  {
    hide Ready, ReadyRow, ContextOf, Approval, Moved, MovedIn, Lost, MarketValue, MarketNotional, MarketOf, Shift,
      Priced, Projected, Notional, Sized, EquityOf;
    ReadyAt(s, start, approved, bySymbol, n);
    var o, now := OrderOf(approved[n]), ContextAt(s, approved, n);
    ReadyUnfolded(s, start, approved[n], bySymbol);
    ContextNow(s, start, a, approved, bySymbol, n);
    SameBaseChecks(s.gate, start, a, o, s.prices[o.symbol], approved[n].context, now.accountValue);
    ContextMeans(a, s.prices, s.markets, o.symbol, now);
    ProjectedNonNegative(s.rates, a, o, s.prices, s.markets, now.market);
    hide AccountAt;
  }

  /** The engine can execute the next order in full if and only if it is payable. */
  lemma CoveredNow(
    s: Session, start: Account, a: Account, approved: seq<Revalidation>, bySymbol: map<string, Row>, n: nat)
    requires Ready(s, start, approved, bySymbol) && n < |approved| && AccountAt(s, start, a, approved, n)
    requires 0.0 < ValueAt(s, approved, n)
    ensures var o := OrderOf(approved[n]);
            Covered(s.rates, a, o.symbol, o.side, o.quantity, PriceOf(s, o)) <==> Payable(s, approved, n)
    ensures var o := OrderOf(approved[n]);
            0.0 < o.quantity && (!Payable(s, approved, n) ==> o.side == Buy)
    ensures Refusal(s.rates, OrderOf(approved[n]), PriceOf(s, OrderOf(approved[n]))).None?
  {
    hide Ready, ReadyRow, ContextOf, PortfolioApproval, Approval, Moved, MovedIn, Lost, MarketValue, MarketNotional,
      Priced, Projected, Gross, Fee, EquityOf, TargetQuantity;
    ReadyAt(s, start, approved, bySymbol, n);
    var o, now := OrderOf(approved[n]), ContextAt(s, approved, n);
    ReadyUnfolded(s, start, approved[n], bySymbol);
    ContextNow(s, start, a, approved, bySymbol, n);
    SameBaseChecks(s.gate, start, a, o, s.prices[o.symbol], approved[n].context, now.accountValue);
    ContextMeans(a, s.prices, s.markets, o.symbol, now);
    hide AccountAt;
    SizedOrderIsAccepted(s.rates, approved[n].intent.value, "", s.prices[o.symbol]);
  }

  // ----- One more row

  lemma NextAccount(s: Session, start: Account, a: Account, approved: seq<Revalidation>, n: nat)
    requires AllIntents(approved) && DistinctSymbols(approved) && n < |approved| && AccountAt(s, start, a, approved, n)
    requires var o := OrderOf(approved[n]); o.symbol in s.prices && FilledWhole(s.rates, a, o, s.prices[o.symbol])
    ensures var o := OrderOf(approved[n]);
            AccountAt(s, start, AfterWhole(s.rates, a, o, PriceOf(s, o)), approved, n + 1)
  {
    hide FilledWhole, AfterWhole, Priced, EquityOf, MarketValue, MarketNotional, MarketOf, Shift, Friction,
      DistinctSymbols, Held, Delta;
    var o := OrderOf(approved[n]);
    var after := AfterWhole(s.rates, a, o, s.prices[o.symbol]);
    EquityAfterWhole(s.rates, a, o, s.prices);
    StillPriced(s.rates, a, o, s.prices);
    forall m
      ensures MarketNotional(after.positions, s.prices, s.markets, m)
              == MarketNotional(start.positions, s.prices, s.markets, m) + MovedIn(s, approved, m, n + 1)
    {
      NotionalsAfterWhole(s.rates, a, o, s.prices, s.markets, m);
    }
    NotionalsAfterWhole(s.rates, a, o, s.prices, s.markets, "");
    HeldNext(s, a, approved, n);
  }

  /** The other orders are about other symbols. */
  lemma HeldNext(s: Session, a: Account, approved: seq<Revalidation>, n: nat)
    requires AllIntents(approved) && DistinctSymbols(approved) && n < |approved|
    ensures var o := OrderOf(approved[n]);
            var after := AfterWhole(s.rates, a, o, PriceOf(s, o));
            forall k :: 0 <= k < |approved| ==>
              Held(after, OrderOf(approved[k]).symbol)
              == Held(a, OrderOf(approved[k]).symbol) + (if k == n then Delta(o) else 0.0)
  {
    hide AfterWhole;
    var o := OrderOf(approved[n]);
    WholePositions(s.rates, a, o, PriceOf(s, o));
  }

  /** A fresh order that cannot be paid for changes nothing but the order store, and the engine says so. */
  lemma FreshOrderFails(c: Rates, mode: Mode, d: Desk, o: Order, price: real)
    requires c.maxFillRatio == 1.0 && mode != RealLive && o.clientOrderId != "" && o.clientOrderId !in d.orders
    requires Refusal(c, o, price).None? && o.side == Buy && !Covered(c, d.account, o.symbol, o.side, o.quantity, price)
    ensures Executed(c, mode, d, o, price, None).1 == Err(InsufficientCash)
  {
    WholeFillIsMatched(c, d.account, o, price);
    hide Traded, Covered, Gross, Fee, Tax, FillPrice;
  }

  /** A fresh order is filled whole if at all. */
  lemma FreshFillIsWhole(c: Rates, mode: Mode, d: Desk, o: Order, price: real)
    requires c.maxFillRatio == 1.0 && mode != RealLive && o.clientOrderId != "" && o.clientOrderId !in d.orders
    ensures var r := Executed(c, mode, d, o, price, None).1;
            r.Ok? && 0.0 < r.value.quantity ==>
              r.value.symbol == o.symbol && r.value.side == o.side && r.value.quantity == o.quantity
  {
    assert FillQuantity(c, o.quantity, None) == o.quantity;
    hide Traded, Covered, Gross, Fee, Tax, FillPrice, FillQuantity;
  }

  /** The outcome of a row in terms of its revalidation. */
  lemma SettledAs(s: Session, b: Books, row: Row, id: string, audited: bool)
    requires ValidBook(b.ledger) && s.mode != RealLive
    ensures var r := Revalidated(s.gate, b.desk.account, row, s.prices, s.markets, s.orderType, s.lot);
            var (books, fill, stop) := RowSettled(s, b, row, id, audited);
            if r.Err? then fill == None && stop == Some(RowStopped(r.error))
            else if r.value.intent.None? then fill == None
            else if r.value.verdict.Denied? then fill == None && stop == Some(RiskStopped(r.value.verdict.reason))
            else
              var o := OrderFor(r.value.intent.value, id);
              var (desk, result) := Executed(s.rates, s.mode, b.desk, o, PriceOf(s, o), None);
              if result.Err? then fill == None && stop == Some(EngineStopped(result.error))
              else
                var f := result.value;
                if 0.0 < f.quantity && f.status in {Filled, PartiallyFilled}
                then books.desk == desk && fill == Some(f) && stop == None
                else fill == None
  {
    hide Revalidated, Executed, Booked;
    var r := Revalidated(s.gate, b.desk.account, row, s.prices, s.markets, s.orderType, s.lot);
    if r.Ok? && r.value.intent.Some? && r.value.verdict.Approved? {
      var o := OrderFor(r.value.intent.value, id);
      var f := Executed(s.rates, s.mode, b.desk, o, PriceOf(s, o), None).1;
      if f.Ok? && 0.0 < f.value.quantity && f.value.status in {Filled, PartiallyFilled} {
        FillConcludes(b.(desk := Executed(s.rates, s.mode, b.desk, o, PriceOf(s, o), None).0), f.value, audited);
      }
    }
  }

  lemma FillConcludes(b: Books, f: Fill, audited: bool)
    requires ValidBook(b.ledger) && 0.0 < f.quantity && f.status in {Filled, PartiallyFilled}
    ensures var (books, fill, stop) := Concluded(b, Sent(Ok(f)), audited);
            books.desk == b.desk && fill == Some(f) && stop == None
  {
    hide PnlOf;
  }

  /** The next row is filled when it fits. */
  lemma NextFilled(
    s: Session, start: Account, b: Books, approved: seq<Revalidation>, bySymbol: map<string, Row>, n: nat, id: string,
    audited: bool)
    requires Ready(s, start, approved, bySymbol) && n < |approved| && AccountAt(s, start, b.desk.account, approved, n)
    requires Fits(s, approved, bySymbol, n)
    requires ValidBook(b.ledger) && ValidStore(b.desk.orders) && id != "" && id !in b.desk.orders
    ensures OrderOf(approved[n]).symbol in bySymbol
    ensures var (books, fill, stop) := RowSettled(s, b, bySymbol[OrderOf(approved[n]).symbol], id, audited);
            && stop == None && fill.Some? && FillsOrder(fill.value, approved[n].intent.value)
            && AccountAt(s, start, books.desk.account, approved, n + 1)
            && ValidStore(books.desk.orders) && books.desk.orders.Keys <= b.desk.orders.Keys + {id}
  {
    hide Ready, Room, Payable, StillFits, AccountAt, ContextAt, Revalidated, PortfolioApproval, Executed, Covered,
      Refusal, ValidStore, RowSettled, AfterWhole, DistinctSymbols, SubmittedRow;
    ReadyAt(s, start, approved, bySymbol, n);
    var o := OrderOf(approved[n]);
    RevalidatedNow(s, start, b.desk.account, approved, bySymbol, n);
    VerdictNow(s, start, b.desk.account, approved, bySymbol, n);
    CoveredNow(s, start, b.desk.account, approved, bySymbol, n);
    ReadyUnfolded(s, start, approved[n], bySymbol);
    var row, sent := bySymbol[o.symbol], OrderFor(approved[n].intent.value, id);
    SettledAs(s, b, row, id, audited);
    SameOrder(s.rates, b.desk.account, approved[n].intent.value, id, PriceOf(s, o));
    FreshOrderFills(s.rates, s.mode, b.desk, sent, PriceOf(s, o));
    FreshFillIsWhole(s.rates, s.mode, b.desk, sent, PriceOf(s, o));
    GatewayExecution(s.rates, s.mode, b.desk, sent, PriceOf(s, o));
    NextAccount(s, start, b.desk.account, approved, n);
  }

  lemma SameOrder(c: Rates, a: Account, intent: Intent, id: string, price: real)
    ensures AfterWhole(c, a, OrderFor(intent, id), price) == AfterWhole(c, a, OrderFor(intent, ""), price)
    ensures Refusal(c, OrderFor(intent, id), price) == Refusal(c, OrderFor(intent, ""), price)
  {
    hide Traded;
  }

  /** What becomes of the next row when it does not fit. */
  predicate Obstructed(
    s: Session, approved: seq<Revalidation>, bySymbol: map<string, Row>, n: nat, fill: Option<Fill>, stop: Option<Stop>)
    requires n < |approved| && AllIntents(approved)
  {
    if ValueAt(s, approved, n) <= 0.0 then fill == None && stop == Some(RowStopped(ContextRefused))
    else if !StaysSized(s, approved, bySymbol, n) then fill.Some? ==> !FillsOrder(fill.value, approved[n].intent.value)
    else if !Room(s, approved, n) then fill == None && stop.Some? && stop.value.RiskStopped?
    else fill == None && stop == Some(EngineStopped(InsufficientCash))
  }

  lemma NextObstructed(
    s: Session, start: Account, b: Books, approved: seq<Revalidation>, bySymbol: map<string, Row>, n: nat, id: string,
    audited: bool)
    requires Ready(s, start, approved, bySymbol) && n < |approved| && AccountAt(s, start, b.desk.account, approved, n)
    requires !Fits(s, approved, bySymbol, n)
    requires ValidBook(b.ledger) && id != "" && id !in b.desk.orders
    ensures OrderOf(approved[n]).symbol in bySymbol
    ensures var (books, fill, stop) := RowSettled(s, b, bySymbol[OrderOf(approved[n]).symbol], id, audited);
            Obstructed(s, approved, bySymbol, n, fill, stop)
  {
    hide Ready, Room, Payable, StaysSized, AccountAt, ContextAt, Revalidated, PortfolioApproval, Executed, Covered,
      Refusal, RowSettled, SubmittedRow, ValueAt;
    ReadyAt(s, start, approved, bySymbol, n);
    var o := OrderOf(approved[n]);
    RevalidatedNow(s, start, b.desk.account, approved, bySymbol, n);
    var row := bySymbol[o.symbol];
    SettledAs(s, b, row, id, audited);
    var r := Revalidated(s.gate, b.desk.account, row, s.prices, s.markets, s.orderType, s.lot);
    if r.Ok? && r.value.intent.Some? {
      var sent := OrderFor(r.value.intent.value, id);
      FreshFillIsWhole(s.rates, s.mode, b.desk, sent, PriceOf(s, sent));
    }
    if 0.0 < ValueAt(s, approved, n) && StaysSized(s, approved, bySymbol, n) {
      VerdictNow(s, start, b.desk.account, approved, bySymbol, n);
      CoveredNow(s, start, b.desk.account, approved, bySymbol, n);
      SameOrder(s.rates, b.desk.account, approved[n].intent.value, id, PriceOf(s, o));
      if Room(s, approved, n) {
        FreshOrderFails(s.rates, s.mode, b.desk, OrderFor(approved[n].intent.value, id), PriceOf(s, o));
      }
    }
  }

  // ----- The whole batch

  lemma StartsAt(s: Session, b: Books, approved: seq<Revalidation>, bySymbol: map<string, Row>)
    requires Ready(s, b.desk.account, approved, bySymbol) && AllIntents(approved) && approved != []
    ensures AccountAt(s, b.desk.account, b.desk.account, approved, 0)
  {
    ReadyUnfolded(s, b.desk.account, approved[0], bySymbol);
    hide Ready, ReadyRow, Revalidated, EquityOf, MarketValue, MarketNotional;
  }

  /** The first `n` orders of the batch are filled, and the account and the ids left over are as expected. */
  ghost predicate FilledTo(
    s: Session, b: Books, p: Progress, approved: seq<Revalidation>, ids: seq<string>, n: nat)
    requires n <= |approved| && AllIntents(approved)
  {
    && FilledSoFar(p, approved, n) && AccountAt(s, b.desk.account, p.books.desk.account, approved, n)
    && ValidStore(p.books.desk.orders) && forall j :: n <= j < |ids| ==> ids[j] !in p.books.desk.orders
  }

  /** The ids are new and ready for use. */
  predicate GoodIds(orders: Store, ids: seq<string>) {
    Unused(orders, ids) && "" !in ids
  }

  lemma OneMoreFilled(
    s: Session, b: Books, p: Progress, approved: seq<Revalidation>, bySymbol: map<string, Row>, ids: seq<string>,
    audited: bool, n: nat)
    requires Ready(s, b.desk.account, approved, bySymbol) && AllIntents(approved) && n < |approved| <= |ids|
    requires ValidBook(p.books.ledger) && FilledTo(s, b, p, approved, ids, n) && GoodIds(b.desk.orders, ids)
    ensures OrderOf(approved[n]).symbol in bySymbol && p.stop.None?
    ensures var next := Continued(s, p, approved[n], bySymbol, ids[n], audited);
            if Fits(s, approved, bySymbol, n) then FilledTo(s, b, next, approved, ids, n + 1)
            else
              var (books, fill, stop) := RowSettled(s, p.books, bySymbol[OrderOf(approved[n]).symbol], ids[n], audited);
              && Obstructed(s, approved, bySymbol, n, fill, stop)
              && next == Progress(books, if fill.Some? then p.fills + [fill.value] else p.fills, stop)
              && !FilledSoFar(next, approved, n + 1)
  {
    hide Ready, Fits, AccountAt, RowSettled, ValidStore;
    assert ids[n] != "" && ids[n] !in p.books.desk.orders;
    if Fits(s, approved, bySymbol, n) {
      hide Obstructed;
      NextFilled(s, b.desk.account, p.books, approved, bySymbol, n, ids[n], audited);
    } else {
      NextObstructed(s, b.desk.account, p.books, approved, bySymbol, n, ids[n], audited);
      hide StaysSized, ValueAt, Room;
    }
  }

  lemma NotYetFilled(
    s: Session, p: Progress, approved: seq<Revalidation>, bySymbol: map<string, Row>, id: string, audited: bool, n: nat)
    requires n < |approved| && AllIntents(approved) && ValidBook(p.books.ledger) && |p.fills| <= n
    ensures var next := Continued(s, p, approved[n], bySymbol, id, audited);
            && |next.fills| <= n + 1 && (FilledSoFar(next, approved, n + 1) ==> FilledSoFar(p, approved, n))
  {
    hide RowSettled;
    var next := Continued(s, p, approved[n], bySymbol, id, audited);
    if FilledSoFar(next, approved, n + 1) {
      assert forall k :: 0 <= k < n ==> p.fills[k] == next.fills[k];
    }
  }

  /** By induction over the rows. */
  lemma {:induction false} FilledWhileFitting(
    s: Session, b: Books, approved: seq<Revalidation>, bySymbol: map<string, Row>, ids: seq<string>, audited: bool,
    n: nat)
    requires Ready(s, b.desk.account, approved, bySymbol) && AllIntents(approved) && n <= |approved| <= |ids|
    requires approved != [] && ValidBook(b.ledger) && ValidStore(b.desk.orders) && GoodIds(b.desk.orders, ids)
    ensures var p := Batch(s, b, approved[..n], bySymbol, ids, audited);
            && |p.fills| <= n
            && if AllFit(s, approved, bySymbol, n) then FilledTo(s, b, p, approved, ids, n)
               else !FilledSoFar(p, approved, n)
  {
    hide Ready, Fits, AccountAt, FilledSoFar, Continued, ValidStore;
    if n == 0 {
      StartsAt(s, b, approved, bySymbol);
      NothingFilled(b, approved);
      assert approved[..0] == [];
    } else {
      FilledWhileFitting(s, b, approved, bySymbol, ids, audited, n - 1);
      assert approved[..n][..n - 1] == approved[..n - 1];
      var p := Batch(s, b, approved[..n - 1], bySymbol, ids, audited);
      NotYetFilled(s, p, approved, bySymbol, ids[n - 1], audited, n - 1);
      if AllFit(s, approved, bySymbol, n - 1) {
        hide FilledTo;
        OneMoreFilled(s, b, p, approved, bySymbol, ids, audited, n - 1);
      }
    }
  }

  lemma NothingFilled(b: Books, approved: seq<Revalidation>)
    requires AllIntents(approved)
    ensures FilledSoFar(Progress(b, [], None), approved, 0)
  {
  }

  /**
   * A batch of approved rows fills exactly the orders that preflight approved, each of them whole, if and only if every
   * order still fits after those before it: their friction leaves its size as it is, the limits leave room for it, and
   * the cash pays for it. The account is then the one that these orders lead to, and holds each row's target.
   */
  lemma BatchCompletesExactly(
    s: Session, b: Books, approved: seq<Revalidation>, bySymbol: map<string, Row>, ids: seq<string>, audited: bool)
    requires Ready(s, b.desk.account, approved, bySymbol) && |approved| <= |ids|
    requires ValidBook(b.ledger) && ValidStore(b.desk.orders) && GoodIds(b.desk.orders, ids)
    ensures AllIntents(approved)
    ensures var end := Batch(s, b, approved, bySymbol, ids, audited);
            && (FilledSoFar(end, approved, |approved|) <==> AllFit(s, approved, bySymbol, |approved|))
            && (FilledSoFar(end, approved, |approved|) && approved != [] ==>
                  AccountAt(s, b.desk.account, end.books.desk.account, approved, |approved|))
  {
    if approved == [] {
      NothingFilled(b, approved);
    } else {
      hide Ready, Fits, AccountAt, Batch, FilledSoFar;
      FilledWhileFitting(s, b, approved, bySymbol, ids, audited, |approved|);
      assert approved[..|approved|] == approved;
    }
  }

  /**
   * At the first row that does not fit the batch stops because nothing is left, because the gate refuses the order or
   * because the cash does not pay for it; or the row is sized anew, and another order or none is filled in its place.
   */
  lemma FirstObstacle(
    s: Session, b: Books, approved: seq<Revalidation>, bySymbol: map<string, Row>, ids: seq<string>, audited: bool,
    n: nat)
    requires Ready(s, b.desk.account, approved, bySymbol) && AllIntents(approved) && n < |approved| <= |ids|
    requires ValidBook(b.ledger) && ValidStore(b.desk.orders) && GoodIds(b.desk.orders, ids)
    requires AllFit(s, approved, bySymbol, n) && !Fits(s, approved, bySymbol, n)
    ensures var p := Batch(s, b, approved[..n], bySymbol, ids, audited);
            var end := Batch(s, b, approved[..n + 1], bySymbol, ids, audited);
            && FilledSoFar(p, approved, n)
            && exists fill: Option<Fill> ::
                 && Obstructed(s, approved, bySymbol, n, fill, end.stop)
                 && end.fills == if fill.Some? then p.fills + [fill.value] else p.fills
  {
    hide Ready, Fits, AccountAt, FilledSoFar, ValidStore, RowSettled, Obstructed;
    FilledWhileFitting(s, b, approved, bySymbol, ids, audited, n);
    assert approved[..n + 1][..n] == approved[..n];
    OneMoreFilled(s, b, Batch(s, b, approved[..n], bySymbol, ids, audited), approved, bySymbol, ids, audited, n);
  }

  /** Unless all rows fit there is a first that does not. */
  lemma {:induction false} FirstUnfit(s: Session, approved: seq<Revalidation>, bySymbol: map<string, Row>, n: nat)
    returns (k: nat)
    requires n <= |approved| && AllIntents(approved) && !AllFit(s, approved, bySymbol, n)
    ensures k < n && AllFit(s, approved, bySymbol, k) && !Fits(s, approved, bySymbol, k)
  {
    hide Fits;
    if AllFit(s, approved, bySymbol, n - 1) {
      k := n - 1;
    } else {
      k := FirstUnfit(s, approved, bySymbol, n - 1);
    }
  }

  /**
   * The account a filled batch leads to holds each row's target: the position called for at the account value before
   * it.
   */
  lemma HoldsTargets(
    s: Session, start: Account, a: Account, approved: seq<Revalidation>, bySymbol: map<string, Row>, k: nat)
    requires Ready(s, start, approved, bySymbol) && AllIntents(approved) && k < |approved|
    requires AccountAt(s, start, a, approved, |approved|)
    ensures var symbol := OrderOf(approved[k]).symbol;
            && symbol in bySymbol && bySymbol[symbol].targetWeight.Some? && 0.0 < PriceOf(s, OrderOf(approved[k]))
               && 0.0 < s.lot
            && Held(a, symbol) == TargetQuantity(approved[k].context.accountValue, bySymbol[symbol].targetWeight.value,
                                                 PriceOf(s, OrderOf(approved[k])), s.lot)
  {
    ReadyAt(s, start, approved, bySymbol, k);
    hide Ready, Revalidated, TargetQuantity, EquityOf, MarketValue, MarketNotional, Priced;
    ReadyUnfolded(s, start, approved[k], bySymbol);
    var o := OrderOf(approved[k]);
    SizedReachesTarget(o.symbol, bySymbol[o.symbol].targetWeight, s.prices[o.symbol], approved[k].context.accountValue,
                       start, s.orderType, s.lot);
  }

  // ----- Engines that do not fill whole orders

  lemma WholeQuantity(c: Rates, quantity: real)
    requires quantity != 0.0
    ensures FillQuantity(c, quantity, None) == quantity ==> c.maxFillRatio == 1.0
  {
    if FillQuantity(c, quantity, None) == quantity {
      DivideBack(quantity, c.maxFillRatio, quantity);
      DivideBack(quantity, 1.0, quantity);
    }
  }

  lemma WholeNeedsRatio(c: Rates, mode: Mode, d: Desk, o: Order, price: real)
    requires o.clientOrderId != "" && o.clientOrderId !in d.orders
    ensures var r := Executed(c, mode, d, o, price, None).1;
            r.Ok? && 0.0 < r.value.quantity && r.value.status == Filled ==> c.maxFillRatio == 1.0
  {
    hide Traded, Covered, Gross, Fee, Tax, FillPrice, FillQuantity;
    if o.quantity != 0.0 {
      WholeQuantity(c, o.quantity);
    }
  }

  /** With a fill ratio other than one no batch ever gets to fill its approved orders whole. */
  lemma {:induction false} OtherRatiosNeverFill(
    s: Session, b: Books, approved: seq<Revalidation>, bySymbol: map<string, Row>, ids: seq<string>, audited: bool,
    n: nat)
    requires AllIntents(approved) && 0 < n <= |approved| <= |ids| && ValidBook(b.ledger) && GoodIds(b.desk.orders, ids)
    ensures var p := Batch(s, b, approved[..n], bySymbol, ids, audited);
            |p.fills| <= n && (FilledSoFar(p, approved, n) ==> s.rates.maxFillRatio == 1.0)
  {
    hide Continued, FilledSoFar;
    var p := Batch(s, b, approved[..n - 1], bySymbol, ids, audited);
    assert approved[..n][..n - 1] == approved[..n - 1];
    if n == 1 {
      FirstIsWhole(s, b, approved, bySymbol, ids[0], audited);
    } else {
      OtherRatiosNeverFill(s, b, approved, bySymbol, ids, audited, n - 1);
    }
    NotYetFilled(s, p, approved, bySymbol, ids[n - 1], audited, n - 1);
  }

  lemma FirstIsWhole(
    s: Session, b: Books, approved: seq<Revalidation>, bySymbol: map<string, Row>, id: string, audited: bool)
    requires AllIntents(approved) && approved != [] && ValidBook(b.ledger) && id != "" && id !in b.desk.orders
    ensures FilledSoFar(Continued(s, Progress(b, [], None), approved[0], bySymbol, id, audited), approved, 1)
            ==> s.rates.maxFillRatio == 1.0
  {
    var symbol := approved[0].intent.value.symbol;
    if symbol in bySymbol {
      FillIsWhole(s, b, bySymbol[symbol], id, audited);
    }
    hide RowSettled;
  }

  lemma FillIsWhole(s: Session, b: Books, row: Row, id: string, audited: bool)
    requires ValidBook(b.ledger) && id != "" && id !in b.desk.orders
    ensures var fill := RowSettled(s, b, row, id, audited).1;
            fill.Some? && fill.value.status == Filled ==> s.rates.maxFillRatio == 1.0
  {
    hide Revalidated, Executed, Booked;
    var r := Revalidated(s.gate, b.desk.account, row, s.prices, s.markets, s.orderType, s.lot);
    if r.Ok? && r.value.intent.Some? {
      var o := OrderFor(r.value.intent.value, id);
      WholeNeedsRatio(s.rates, s.mode, b.desk, o, PriceOf(s, o));
    }
  }
}
