/** The exposure the risk gate projects, against the exposure rebuilt from the account after the fill. */
module Exposure {
  import opened Base
  import opened Money
  import opened Orders
  import opened Execution
  import opened Equity
  import opened Risk
  import opened ContextBuilder

  /** What a fill costs beyond the market value it moves: slippage, charges and truncation. */
  function Friction(c: Rates, side: Side, quantity: real, price: real): (r: real) {
    var gross, fee := Gross(c, side, quantity, price), Fee(c, side, quantity, price);
    if side == Buy then gross + fee - Product(quantity, price)
    else Product(quantity, price) - (gross - fee - Tax(c, side, quantity, price))
  }

  /** The engine fills the whole order at once. */
  predicate FilledWhole(c: Rates, a: Account, o: Order, price: real) {
    && 0.0 < o.quantity && 0.0 < price && SoundRates(c)
    && Covered(c, a, o.symbol, o.side, o.quantity, price)
  }

  function AfterWhole(c: Rates, a: Account, o: Order, price: real): (r: Account) {
    Traded(c, a, o.symbol, o.side, o.quantity, price)
  }

  /** The engine does exactly this when its ratio is one and nothing limits the quantity. */
  lemma WholeFillIsMatched(c: Rates, a: Account, o: Order, price: real)
    requires c.maxFillRatio == 1.0 && Refusal(c, o, price).None?
    ensures FillQuantity(c, o.quantity, None) == o.quantity
    ensures Covered(c, a, o.symbol, o.side, o.quantity, price) ==>
              Matched(c, a, o, price, None).0 == AfterWhole(c, a, o, price) && Matched(c, a, o, price, None).1.Ok?
  {
    hide Traded, Covered;
  }

  function Delta(o: Order): (r: real) {
    if o.side == Buy then o.quantity else -o.quantity
  }

  lemma WholePositions(c: Rates, a: Account, o: Order, price: real)
    ensures AfterWhole(c, a, o, price).positions
            == a.positions[o.symbol := GetOr(a.positions, o.symbol, 0.0) + Delta(o)]
  {
    hide Gross, Fee, Tax;
    assert Held(a, o.symbol) + -o.quantity == Held(a, o.symbol) - o.quantity;
  }

  lemma DeltaValue(o: Order, prices: Prices)
    requires o.symbol in prices
    ensures LineValue(Delta(o), o.symbol, prices) == Shift(o, prices[o.symbol])
    ensures LineValue(o.quantity, o.symbol, prices) == Product(o.quantity, prices[o.symbol])
  {
  }

  lemma NotionalsAfterWhole(c: Rates, a: Account, o: Order, prices: Prices, markets: Markets, market: string)
    requires o.symbol in prices
    ensures var after, shift := AfterWhole(c, a, o, prices[o.symbol]), Shift(o, prices[o.symbol]);
            && MarketValue(after.positions, prices) == MarketValue(a.positions, prices) + shift
            && MarketNotional(after.positions, prices, markets, market)
               == MarketNotional(a.positions, prices, markets, market)
                  + (if MarketOf(markets, o.symbol) == market then shift else 0.0)
  {
    hide AfterWhole, Delta, Shift, MarketValue, MarketNotional, LineValue, MarketOf;
    WholePositions(c, a, o, prices[o.symbol]);
    DeltaValue(o, prices);
    ValueAfterUpdate(a.positions, prices, o.symbol, Delta(o));
    MarketAfterUpdate(a.positions, prices, markets, o.symbol, Delta(o), market);
  }

  lemma EquityAfterWhole(c: Rates, a: Account, o: Order, prices: Prices)
    requires o.symbol in prices
    ensures EquityOf(AfterWhole(c, a, o, prices[o.symbol]), prices)
            == EquityOf(a, prices) - Friction(c, o.side, o.quantity, prices[o.symbol])
  {
    hide Traded, EquityOf, LineValue, Product, Gross, Fee, Tax;
    DeltaValue(o, prices);
    TradeMovesEquity(c, a, o.symbol, o.side, o.quantity, prices[o.symbol], prices);
  }

  lemma StillPriced(c: Rates, a: Account, o: Order, prices: Prices)
    requires o.symbol in prices && FilledWhole(c, a, o, prices[o.symbol])
    requires 0.0 <= a.cash && Priced(a.positions, prices)
    ensures var after := AfterWhole(c, a, o, prices[o.symbol]); 0.0 <= after.cash && Priced(after.positions, prices)
  {
    TradeStaysNonNegative(c, a, o.symbol, o.side, o.quantity, prices[o.symbol]);
    hide Gross, Fee, Tax;
  }

  /**
   * After a full fill at the reference price, the context the builder computes has exactly the portfolio and market
   * notionals the gate projected, and an account value smaller by the friction. It exists unless nothing is left.
   */
  lemma ProjectionIsRebuilt(c: Rates, a: Account, o: Order, prices: Prices, markets: Markets)
    requires o.symbol in prices && FilledWhole(c, a, o, prices[o.symbol])
    requires ContextOf(a, prices, markets, o.symbol).Some?
    ensures var price := prices[o.symbol];
            var ctx := ContextOf(a, prices, markets, o.symbol).value;
            var value := ctx.accountValue - Friction(c, o.side, o.quantity, price);
            ContextOf(AfterWhole(c, a, o, price), prices, markets, o.symbol) ==
            if value <= 0.0 then None
            else Some(RiskContext(value, ctx.portfolioNotional + Shift(o, price),
                                  if ctx.market == "" then 0.0 else ctx.marketNotional + Shift(o, price), ctx.market))
  {
    hide AfterWhole, Friction, EquityOf, MarketValue, MarketNotional, MarketOf, TargetMarket, Shift, Priced,
      FilledWhole;
    var market := TargetMarket(markets, o.symbol);
    NotionalsAfterWhole(c, a, o, prices, markets, market);
    EquityAfterWhole(c, a, o, prices);
    StillPriced(c, a, o, prices);
    if market != "" {
      SameMarket(markets, o.symbol);
    }
  }

  lemma SameMarket(markets: Markets, symbol: string)
    requires TargetMarket(markets, symbol) != ""
    ensures MarketOf(markets, symbol) == TargetMarket(markets, symbol)
  {
    StripOfEmpty();
  }

  /**
   * The rebuilt portfolio notional is within its limit. The rebuilt market share is within its limit exactly when the
   * projected market notional is below the limit's share of the account value less the friction, which the caller can
   * compute before the call; without friction it always is.
   */
  predicate LimitsKept(limits: Limits, ctx: RiskContext, shift: real, friction: real, rebuilt: RiskContext)
    requires rebuilt.accountValue > 0.0
  {
    && 0.0 <= rebuilt.portfolioNotional <= limits.maxPortfolioNotional
    && rebuilt.market == ctx.market
    && (ctx.market != "" ==>
          var share := rebuilt.marketNotional / rebuilt.accountValue;
          && 0.0 <= rebuilt.marketNotional
          && (share < limits.maxMarketExposure <==>
              ctx.marketNotional + shift < Product(limits.maxMarketExposure, ctx.accountValue - friction))
          && (0.0 <= limits.maxMarketExposure && friction <= 0.0 ==> share < limits.maxMarketExposure))
  }

  /** An approved order, filled whole at the reference price, leaves the rebuilt exposure within the limits. */
  lemma LimitsHoldAfterFill(c: Rates, g: Gate, a: Account, o: Order, prices: Prices, markets: Markets)
    requires o.symbol in prices && FilledWhole(c, a, o, prices[o.symbol])
    requires ContextOf(a, prices, markets, o.symbol).Some?
    requires PortfolioApproval(g, a, o, prices[o.symbol], ContextOf(a, prices, markets, o.symbol).value) == Approved
    ensures var price := prices[o.symbol];
            var rebuilt := ContextOf(AfterWhole(c, a, o, price), prices, markets, o.symbol);
            rebuilt.Some? ==>
              && rebuilt.value.accountValue > 0.0
              && LimitsKept(g.limits, ContextOf(a, prices, markets, o.symbol).value, Shift(o, price),
                            Friction(c, o.side, o.quantity, price), rebuilt.value)
  {
    hide ContextOf, AfterWhole, Friction, Shift, FilledWhole, LimitsKept, PortfolioApproval;
    var price := prices[o.symbol];
    var ctx := ContextOf(a, prices, markets, o.symbol).value;
    var friction := Friction(c, o.side, o.quantity, price);
    ProjectionIsRebuilt(c, a, o, prices, markets);
    if ctx.accountValue - friction > 0.0 {
      ApprovedKeepsLimits(g, a, o, price, ctx, friction);
    }
  }

  lemma ApprovedKeepsLimits(g: Gate, a: Account, o: Order, price: real, ctx: RiskContext, friction: real)
    requires PortfolioApproval(g, a, o, price, ctx) == Approved && ctx.accountValue - friction > 0.0
    ensures LimitsKept(g.limits, ctx, Shift(o, price), friction,
                       RiskContext(ctx.accountValue - friction, ctx.portfolioNotional + Shift(o, price),
                                   if ctx.market == "" then 0.0 else ctx.marketNotional + Shift(o, price), ctx.market))
  {
    hide Shift, Approval;
    if ctx.market != "" {
      var projected := ctx.marketNotional + Shift(o, price);
      ShareBelow(projected, ctx.accountValue, g.limits.maxMarketExposure);
      ShareBelow(projected, ctx.accountValue - friction, g.limits.maxMarketExposure);
      if 0.0 <= g.limits.maxMarketExposure && friction <= 0.0 {
        MulMonotone(ctx.accountValue, ctx.accountValue - friction, g.limits.maxMarketExposure);
      }
    }
  }

  lemma ShareBelow(part: real, whole: real, limit: real)
    requires 0.0 < whole
    ensures part / whole < limit <==> part < Product(limit, whole)
  {
    var share := part / whole;
    assert share * whole == part;
    if share < limit {
      MulStrict(share, limit, whole);
    } else {
      MulMonotone(limit, share, whole);
    }
  }

  lemma ShareAbove(part: real, whole: real, limit: real)
    requires 0.0 < whole
    ensures part / whole > limit <==> part > Product(limit, whole)
  {
    var share := part / whole;
    assert share * whole == part;
    if share > limit {
      MulStrict(limit, share, whole);
    } else {
      MulMonotone(share, limit, whole);
    }
  }

  lemma CashAfterWhole(c: Rates, a: Account, o: Order, price: real)
    ensures AfterWhole(c, a, o, price).cash == a.cash - Shift(o, price) - Friction(c, o.side, o.quantity, price)
  {
    hide Gross, Fee, Tax, Product;
  }

  /**
   * The cash reserve after a full fill: the rebuilt cash share is above it exactly when the cash less notional and
   * friction is above the reserve's share of the account value less the friction, all known before the order is sent.
   * The gate leaves the friction out; without friction an approved BUY keeps the reserve.
   */
  lemma ReserveAfterFill(c: Rates, g: Gate, a: Account, o: Order, prices: Prices, markets: Markets)
    requires o.symbol in prices && FilledWhole(c, a, o, prices[o.symbol])
    requires ContextOf(a, prices, markets, o.symbol).Some?
    ensures var price, reserve := prices[o.symbol], g.limits.minCashReserve;
            var ctx, friction := ContextOf(a, prices, markets, o.symbol).value, Friction(c, o.side, o.quantity, price);
            var after := AfterWhole(c, a, o, price);
            var rebuilt := ContextOf(after, prices, markets, o.symbol);
            rebuilt.Some? ==>
              && rebuilt.value.accountValue > 0.0
              && (after.cash / rebuilt.value.accountValue > reserve <==>
                  a.cash - Shift(o, price) - friction > Product(reserve, ctx.accountValue - friction))
              && (PortfolioApproval(g, a, o, price, ctx) == Approved && o.side == Buy && reserve <= 1.0
                  && friction <= 0.0 ==>
                    after.cash / rebuilt.value.accountValue > reserve)
  {
    hide ContextOf, AfterWhole, Friction, Shift, FilledWhole, PortfolioApproval, Product;
    var price, reserve := prices[o.symbol], g.limits.minCashReserve;
    var ctx := ContextOf(a, prices, markets, o.symbol).value;
    var friction := Friction(c, o.side, o.quantity, price);
    ProjectionIsRebuilt(c, a, o, prices, markets);
    CashAfterWhole(c, a, o, price);
    if ctx.accountValue - friction > 0.0 {
      ShareAbove(a.cash - Shift(o, price) - friction, ctx.accountValue - friction, reserve);
      if PortfolioApproval(g, a, o, price, ctx) == Approved && o.side == Buy && reserve <= 1.0 && friction <= 0.0 {
        ApprovedReserve(g, a, o, price, ctx);
        FrictionShare(reserve, ctx.accountValue, friction);
      }
    }
  }

  lemma ApprovedReserve(g: Gate, a: Account, o: Order, price: real, ctx: RiskContext)
    requires PortfolioApproval(g, a, o, price, ctx) == Approved && o.side == Buy
    ensures a.cash - Shift(o, price) > Product(g.limits.minCashReserve, ctx.accountValue)
  {
    hide Product;
    ShareAbove(a.cash - Shift(o, price), ctx.accountValue, g.limits.minCashReserve);
  }

  lemma FrictionShare(reserve: real, value: real, friction: real)
    requires reserve <= 1.0 && friction <= 0.0
    ensures Product(reserve, value - friction) <= Product(reserve, value) - friction
  {
    hide Product;
    ProductSum(reserve, value, -friction);
    ProductBetween(reserve, -friction, reserve, 1.0);
    ProductOne(-friction);
  }

  const SLIPPING := Rates(0.0, 0.0, 1000.0, 1.0)
  const HALF_LIMIT := Gate(Limits(1000.0, 1000.0, 1.0, 1000.0, 0.5, 0.1), false, 0.0)
  const HUNDRED := Account(100.0, map[])
  const NEARLY_HALF := Order("A", Buy, 49.99, Market, None, "a")
  const UNIT_PRICE: Prices := map["A" := 1.0]
  const ONE_MARKET: Markets := map["A" := "KRX"]

  lemma SlippingFill()
    ensures FilledWhole(SLIPPING, HUNDRED, NEARLY_HALF, 1.0)
    ensures Friction(SLIPPING, Buy, 49.99, 1.0) == 4.99
  {
    assert Gross(SLIPPING, Buy, 49.99, 1.0) == 54.98;
    assert Fee(SLIPPING, Buy, 49.99, 1.0) == 0.0;
    hide Gross, Fee;
  }

  lemma NearlyHalfContext()
    ensures ContextOf(HUNDRED, UNIT_PRICE, ONE_MARKET, "A") == Some(RiskContext(100.0, 0.0, 0.0, "KRX"))
  {
    assert Worth(map[], UNIT_PRICE) == map[];
    assert WorthIn(map[], UNIT_PRICE, ONE_MARKET, "KRX") == map[];
    assert DropLeadingSpace("KRX") == "KRX";
    assert DropTrailingSpace("KRX") == "KRX";
  }

  /**
   * Slippage can carry an approved order past the exposure limit: 49.99 of 100 passes a limit of a half, and ends above
   * it.
   */
  lemma SlippageBreachesExposure()
    ensures var ctx := ContextOf(HUNDRED, UNIT_PRICE, ONE_MARKET, "A");
            var rebuilt := ContextOf(AfterWhole(SLIPPING, HUNDRED, NEARLY_HALF, 1.0), UNIT_PRICE, ONE_MARKET, "A");
            && FilledWhole(SLIPPING, HUNDRED, NEARLY_HALF, 1.0)
            && ctx.Some? && PortfolioApproval(HALF_LIMIT, HUNDRED, NEARLY_HALF, 1.0, ctx.value) == Approved
            && rebuilt.Some? && rebuilt.value.marketNotional / rebuilt.value.accountValue
               > HALF_LIMIT.limits.maxMarketExposure
  {
    SlippingFill();
    NearlyHalfContext();
    hide ContextOf, FilledWhole, Friction, AfterWhole;
    ProjectionIsRebuilt(SLIPPING, HUNDRED, NEARLY_HALF, UNIT_PRICE, ONE_MARKET);
    assert Shift(NEARLY_HALF, 1.0) == 49.99;
  }

  const MOST := Order("A", Buy, 89.0, Market, None, "a")

  lemma SlippingMost()
    ensures FilledWhole(SLIPPING, HUNDRED, MOST, 1.0) && Friction(SLIPPING, Buy, 89.0, 1.0) == 8.9
    ensures ContextOf(HUNDRED, UNIT_PRICE, map[], "A") == Some(RiskContext(100.0, 0.0, 0.0, ""))
  {
    assert Gross(SLIPPING, Buy, 89.0, 1.0) == 97.9;
    assert Fee(SLIPPING, Buy, 89.0, 1.0) == 0.0;
    assert Worth(map[], UNIT_PRICE) == map[];
    StripOfEmpty();
    hide Gross, Fee;
  }

  /**
   * Nor does approval keep the cash reserve: 89 of 100 leaves more than a tenth in cash, and with the slippage less.
   */
  lemma SlippageBreachesReserve()
    ensures var ctx := ContextOf(HUNDRED, UNIT_PRICE, map[], "A");
            var after := AfterWhole(SLIPPING, HUNDRED, MOST, 1.0);
            var rebuilt := ContextOf(after, UNIT_PRICE, map[], "A");
            && FilledWhole(SLIPPING, HUNDRED, MOST, 1.0)
            && ctx.Some? && PortfolioApproval(HALF_LIMIT, HUNDRED, MOST, 1.0, ctx.value) == Approved
            && rebuilt.Some? && rebuilt.value.accountValue > 0.0
            && after.cash / rebuilt.value.accountValue < HALF_LIMIT.limits.minCashReserve
  {
    SlippingMost();
    hide ContextOf, FilledWhole, Friction, AfterWhole;
    assert Shift(MOST, 1.0) == 89.0;
    ProjectionIsRebuilt(SLIPPING, HUNDRED, MOST, UNIT_PRICE, map[]);
    CashAfterWhole(SLIPPING, HUNDRED, MOST, 1.0);
  }
}
