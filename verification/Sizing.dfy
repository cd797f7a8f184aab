/** What sizing promises, and what approval, execution and sizing promise together. */
module Sizing {
  import opened Base
  import opened Money
  import opened Orders
  import opened Execution
  import opened Equity
  import opened Risk
  import opened ContextBuilder
  import opened Exposure
  import opened TradeFacade
  import opened Totals

  /** The target is the largest whole number of lots worth at most the weighted account value. */
  lemma LargestLotMultiple(accountValue: real, weight: real, price: real, lot: real)
    requires 0.0 < accountValue && 0.0 <= weight && 0.0 < price && 0.0 < lot
    ensures var target := TargetQuantity(accountValue, weight, price, lot);
            && 0 <= Lots(accountValue, weight, price, lot)
            && Product(target, price) <= Product(accountValue, weight) < Product(target + lot, price)
  {
    var exact := accountValue * weight;
    var lots := exact / price / lot;
    assert 0.0 <= exact by { MulMonotone(0.0, accountValue, weight); }
    RatioOfLots(exact, price, lot);
    FloorBrackets(lots, price, lot, exact);
    assert lots.Floor == Lots(accountValue, weight, price, lot);
  }

  lemma FloorBrackets(lots: real, price: real, lot: real, exact: real)
    requires 0.0 < price && 0.0 < lot && 0.0 <= exact && Product(Product(lots, lot), price) == exact
    ensures 0 <= lots.Floor
    ensures Product(Product(lots.Floor as real, lot), price)
            <= exact < Product(Product(lots.Floor as real, lot) + lot, price)
  {
    hide Product;
    ProductZero(lot);
    ProductZero(price);
    if lots < 0.0 {
      ProductStrict(lots, 0.0, lot);
      ProductStrict(Product(lots, lot), 0.0, price);
    }
    var n := lots.Floor as real;
    ProductBetween(n, lot, n, lots);
    ProductBetween(Product(n, lot), price, Product(n, lot), Product(lots, lot));
    ProductStrict(lots, n + 1.0, lot);
    ProductSum(lot, n, 1.0);
    ProductOne(lot);
    ProductStrict(Product(lots, lot), Product(n, lot) + lot, price);
  }

  lemma RatioOfLots(exact: real, price: real, lot: real)
    requires 0.0 < price && 0.0 < lot
    ensures exact / price / lot * lot * price == exact
  {
    assert exact / price / lot * lot == exact / price;
  }

  /** No other whole number of lots is the largest that fits, so the target is determined by its meaning. */
  lemma LargestLotIsUnique(exact: real, price: real, lot: real, i: int, j: int)
    requires 0.0 < price && 0.0 < lot
    requires Product(Product(i as real, lot), price) <= exact < Product(Product(i as real, lot) + lot, price)
    requires Product(Product(j as real, lot), price) <= exact < Product(Product(j as real, lot) + lot, price)
    ensures i == j
  {
    if i < j {
      LotsApart(i, j, price, lot);
    } else if j < i {
      LotsApart(j, i, price, lot);
    }
  }

  lemma LotsApart(i: int, j: int, price: real, lot: real)
    requires 0.0 < price && 0.0 < lot && i < j
    ensures Product(Product(i as real, lot) + lot, price) <= Product(Product(j as real, lot), price)
  {
    hide Product;
    var next := i as real + 1.0;
    ProductSum(lot, i as real, 1.0);
    ProductOne(lot);
    ProductBetween(next, lot, next, j as real);
    ProductBetween(Product(next, lot), price, Product(next, lot), Product(j as real, lot));
  }

  /** An order sized from a row never sells more than is held, and filling it whole lands on the target. */
  lemma SizedReachesTarget(
    symbol: string, weight: Option<real>, price: real, accountValue: real, a: Account, orderType: OrderType, lot: real)
    requires Sized(symbol, weight, price, accountValue, Held(a, symbol), orderType, lot).Ok?
    ensures var sized := Sized(symbol, weight, price, accountValue, Held(a, symbol), orderType, lot).value;
            var target := TargetQuantity(accountValue, weight.value, price, lot);
            && (sized.None? <==> Held(a, symbol) == target)
            && (sized.Some? ==>
                  var o := OrderFor(sized.value, "");
                  && o.symbol == symbol && 0.0 < o.quantity
                  && (o.side == Sell ==> o.quantity <= Held(a, symbol))
                  && Held(a, symbol) + Delta(o) == target)
  {
    LargestLotMultiple(accountValue, weight.value, price, lot);
    var n := Lots(accountValue, weight.value, price, lot) as real;
    assert 0.0 <= Product(n, lot) by { MulMonotone(0.0, n, lot); }
  }

  /** The order a row revalidates to is marketable at the latest price it was sized at. */
  lemma SizedOrderIsAccepted(c: Rates, intent: Intent, id: string, price: real)
    requires 0.0 < intent.quantity && 0.0 < price && 0.0 <= c.slippageBps && 0.0 < c.maxFillRatio <= 1.0
    requires intent.orderType == Limit ==> intent.limitPrice == Some(price)
    ensures Refusal(c, OrderFor(intent, id), price).None?
  {
  }

  /** A context never values an account below its cash. */
  lemma CashWithinValue(a: Account, prices: Prices, markets: Markets, target: string)
    requires ContextOf(a, prices, markets, target).Some?
    ensures a.cash <= ContextOf(a, prices, markets, target).value.accountValue
  {
    ValueNonNegative(a.positions, prices);
  }

  lemma {:induction false} ValueNonNegative(positions: map<string, real>, prices: Prices)
    requires Priced(positions, prices)
    ensures 0.0 <= MarketValue(positions, prices)
    decreases |positions|
  {
    hide LineValue, Priced;
    if positions == map[] {
      assert Worth(positions, prices) == map[];
    } else {
      var symbol :| symbol in positions;
      RemoveShrinks(positions, symbol);
      PricedWithout(positions, prices, symbol);
      ValueNonNegative(positions - {symbol}, prices);
      TotalWithout(Worth(positions, prices), symbol);
      assert Worth(positions, prices) - {symbol} == Worth(positions - {symbol}, prices);
    }
  }

  lemma PricedWithout(positions: map<string, real>, prices: Prices, symbol: string)
    requires Priced(positions, prices) && symbol in positions
    ensures Priced(positions - {symbol}, prices) && 0.0 <= LineValue(positions[symbol], symbol, prices)
  {
    LineNonNegative(positions[symbol], symbol, prices);
  }

  lemma LineNonNegative(quantity: real, symbol: string, prices: Prices)
    requires 0.0 <= quantity && (0.0 < quantity ==> symbol in prices && 0.0 < prices[symbol])
    ensures 0.0 <= LineValue(quantity, symbol, prices)
  {
  }

  // ----- Approval, execution and sizing together

  /** A row that revalidates to an approved order. */
  ghost predicate CallsFor(
    g: Gate, a: Account, row: Row, prices: Prices, markets: Markets, orderType: OrderType, lot: real, intent: Intent)
  {
    var r := Revalidated(g, a, row, prices, markets, orderType, lot);
    r.Ok? && r.value.intent == Some(intent) && r.value.verdict == Approved
  }

  /** What the row calls for, unfolded: the order, its context, the verdict and the position it aims at. */
  lemma CallUnfolded(
    g: Gate, a: Account, row: Row, prices: Prices, markets: Markets, orderType: OrderType, lot: real, intent: Intent)
    requires CallsFor(g, a, row, prices, markets, orderType, lot, intent)
    ensures intent.symbol in prices && 0.0 < prices[intent.symbol] && intent.symbol == Strip(row.symbol)
    ensures 0.0 < lot && row.targetWeight.Some? && 0.0 <= row.targetWeight.value
    ensures var ctx := ContextOf(a, prices, markets, intent.symbol);
            var o := OrderFor(intent, "");
            && ctx.Some? && 0.0 < ctx.value.accountValue
            && 0.0 < o.quantity && (o.orderType == Limit ==> o.limitPrice == Some(prices[o.symbol]))
            && Held(a, o.symbol) + Delta(o)
               == TargetQuantity(ctx.value.accountValue, row.targetWeight.value, prices[o.symbol], lot)
            && PortfolioApproval(g, a, o, prices[o.symbol], ctx.value) == Approved
  {
    hide PortfolioApproval, ContextOf, Strip, TargetQuantity;
    var ctx := ContextOf(a, prices, markets, intent.symbol).value;
    SizedReachesTarget(intent.symbol, row.targetWeight, prices[intent.symbol], ctx.accountValue, a, orderType, lot);
  }

  /** An approved order can be paid for, or delivered, in full. */
  lemma ApprovedIsCovered(c: Rates, g: Gate, a: Account, o: Order, prices: Prices, markets: Markets)
    requires SoundRates(c) && c.maxFillRatio == 1.0
    requires 0.0 <= g.limits.minCashReserve && ReserveCoversCosts(c, g.limits.minCashReserve)
    requires o.symbol in prices && Refusal(c, o, prices[o.symbol]).None?
    requires ContextOf(a, prices, markets, o.symbol).Some?
    requires PortfolioApproval(g, a, o, prices[o.symbol], ContextOf(a, prices, markets, o.symbol).value) == Approved
    ensures Covered(c, a, o.symbol, o.side, o.quantity, prices[o.symbol])
  {
    var price := prices[o.symbol];
    var value := ContextOf(a, prices, markets, o.symbol).value.accountValue;
    CashWithinValue(a, prices, markets, o.symbol);
    WholeFillIsMatched(c, a, o, price);
    hide ContextOf, Approval, Covered, Traded, ReserveCoversCosts;
    if o.side == Buy {
      ApprovedBuyIsAffordable(c, g, a, o, price, Some(value), None);
    } else {
      ApprovedSellIsCovered(c, g, a, o, price, Some(value), None);
    }
  }

  /** A fresh order that is covered is filled whole by the gateway. */
  lemma FreshOrderFills(c: Rates, mode: Mode, d: Desk, o: Order, price: real)
    requires SoundRates(c) && c.maxFillRatio == 1.0 && mode != RealLive
    requires o.clientOrderId != "" && o.clientOrderId !in d.orders
    requires Refusal(c, o, price).None? && Covered(c, d.account, o.symbol, o.side, o.quantity, price)
    ensures var (after, r) := Executed(c, mode, d, o, price, None);
            && r.Ok? && r.value.status == Filled && r.value.quantity == o.quantity
            && after.account == AfterWhole(c, d.account, o, price)
            && o.clientOrderId in after.orders && after.orders[o.clientOrderId].status == Filled
  {
    WholeFillIsMatched(c, d.account, o, price);
    hide Traded, Covered, Gross, Fee, Tax, FillPrice;
  }

  /**
   * With sound rates, full fills and a reserve that covers the costs, a row that passes revalidation is filled whole,
   * and the position lands exactly on the largest lot multiple worth at most weight times account value.
   */
  lemma ApprovedRowLandsOnTarget(
    c: Rates, g: Gate, mode: Mode, d: Desk, row: Row, prices: Prices, markets: Markets, orderType: OrderType, lot: real,
    id: string, intent: Intent)
    requires SoundRates(c) && c.maxFillRatio == 1.0 && mode != RealLive
    requires 0.0 <= g.limits.minCashReserve && ReserveCoversCosts(c, g.limits.minCashReserve)
    requires id != "" && id !in d.orders
    requires CallsFor(g, d.account, row, prices, markets, orderType, lot, intent)
    ensures var (after, s) := SubmittedRow(c, g, mode, d, row, prices, markets, orderType, lot, id);
            var ctx := ContextOf(d.account, prices, markets, intent.symbol).value;
            && s.Sent? && s.result.Ok? && s.result.value.status == Filled && s.result.value.quantity == intent.quantity
            && after.account == AfterWhole(c, d.account, OrderFor(intent, id), prices[intent.symbol])
            && Held(after.account, intent.symbol)
               == TargetQuantity(ctx.accountValue, row.targetWeight.value, prices[intent.symbol], lot)
  {
    var o := OrderFor(intent, id);
    CallUnfolded(g, d.account, row, prices, markets, orderType, lot, intent);
    var price := prices[o.symbol];
    SizedOrderIsAccepted(c, intent, id, price);
    var ctx := ContextOf(d.account, prices, markets, intent.symbol).value;
    SameVerdict(g, d.account, intent, id, price, ctx);
    ApprovedIsCovered(c, g, d.account, o, prices, markets);
    FreshOrderFills(c, mode, d, o, price);
    WholePositions(c, d.account, o, price);
    hide Executed, Revalidated, ContextOf, Covered, Traded, AfterWhole, TargetQuantity, PortfolioApproval,
      ReserveCoversCosts;
  }

  /** The verdict does not depend on the client order id. */
  lemma SameVerdict(g: Gate, a: Account, intent: Intent, id: string, price: real, ctx: RiskContext)
    ensures PortfolioApproval(g, a, OrderFor(intent, id), price, ctx)
            == PortfolioApproval(g, a, OrderFor(intent, ""), price, ctx)
  {
  }

  /**
   * After the fill, revalidating at the same prices yields no order exactly when the target is still the largest lot
   * multiple for the account value less the friction, which is known before the order is sent.
   */
  lemma SecondOrderCondition(
    c: Rates, g: Gate, a: Account, row: Row, prices: Prices, markets: Markets, orderType: OrderType, lot: real,
    intent: Intent)
    requires CallsFor(g, a, row, prices, markets, orderType, lot, intent)
    requires FilledWhole(c, a, OrderFor(intent, ""), prices[intent.symbol])
    ensures var price, o := prices[intent.symbol], OrderFor(intent, "");
            var value := ContextOf(a, prices, markets, intent.symbol).value.accountValue;
            var target := TargetQuantity(value, row.targetWeight.value, price, lot);
            var left := value - Friction(c, o.side, o.quantity, price);
            var again := Revalidated(g, AfterWhole(c, a, o, price), row, prices, markets, orderType, lot);
            0.0 < left ==>
              && again.Ok?
              && (again.value.intent.None? <==>
                  Product(target, price) <= Product(left, row.targetWeight.value) < Product(target + lot, price))
  {
    hide PortfolioApproval, ContextOf, Strip, TargetQuantity, AfterWhole, Friction, Shift, FilledWhole, Product;
    var o := OrderFor(intent, "");
    CallUnfolded(g, a, row, prices, markets, orderType, lot, intent);
    var price, weight := prices[o.symbol], row.targetWeight.value;
    var value := ContextOf(a, prices, markets, o.symbol).value.accountValue;
    var left := value - Friction(c, o.side, o.quantity, price);
    ProjectionIsRebuilt(c, a, o, prices, markets);
    HoldsTarget(c, a, o, price);
    if 0.0 < left {
      SameTarget(value, left, weight, price, lot);
      TargetNonNegative(value, weight, price, lot);
    }
  }

  lemma HoldsTarget(c: Rates, a: Account, o: Order, price: real)
    ensures Held(AfterWhole(c, a, o, price), o.symbol) == Held(a, o.symbol) + Delta(o)
  {
    hide AfterWhole;
    WholePositions(c, a, o, price);
  }

  lemma TargetNonNegative(value: real, weight: real, price: real, lot: real)
    requires 0.0 < value && 0.0 <= weight && 0.0 < price && 0.0 < lot
    ensures 0.0 <= TargetQuantity(value, weight, price, lot)
  {
    LargestLotMultiple(value, weight, price, lot);
    MulMonotone(0.0, Lots(value, weight, price, lot) as real, lot);
  }

  /** Two account values give the same target exactly when the first target is the largest that fits the second. */
  lemma SameTarget(value: real, left: real, weight: real, price: real, lot: real)
    requires 0.0 < value && 0.0 < left && 0.0 <= weight && 0.0 < price && 0.0 < lot
    ensures var target := TargetQuantity(value, weight, price, lot);
            TargetQuantity(left, weight, price, lot) == target <==>
            Product(target, price) <= Product(left, weight) < Product(target + lot, price)
  {
    LargestLotMultiple(left, weight, price, lot);
    hide Product;
    var target := TargetQuantity(value, weight, price, lot);
    if Product(target, price) <= Product(left, weight) < Product(target + lot, price) {
      LargestLotIsUnique(Product(left, weight), price, lot,
                         Lots(value, weight, price, lot), Lots(left, weight, price, lot));
    }
  }

  /** Nothing is lost on the fill: no charges, no slippage, and a cent-exact amount. */
  predicate Frictionless(c: Rates, quantity: real, price: real) {
    c.fee == 0.0 && c.sellTax == 0.0 && c.slippageBps == 0.0 && CentExact(Product(quantity, price))
  }

  lemma FrictionlessCostsNothing(c: Rates, side: Side, quantity: real, price: real)
    requires Frictionless(c, quantity, price)
    ensures Friction(c, side, quantity, price) == 0.0
  {
    assert FillPrice(c, side, price) == Product(price, 1.0);
    ProductOne(price);
    assert Gross(c, side, quantity, price) == Product(quantity, price);
    NoCharge(Gross(c, side, quantity, price));
    hide Gross, Product, Cents;
  }

  lemma NoCharge(amount: real)
    ensures Cents(amount, 0.0) == 0.0
  {
    assert amount * 0.0 == 0.0;
  }

  /** Sizing is a fixed point: after a full frictionless fill, revalidating at the same prices yields no order. */
  lemma RevalidationIsIdempotent(
    c: Rates, g: Gate, a: Account, row: Row, prices: Prices, markets: Markets, orderType: OrderType, lot: real,
    intent: Intent)
    requires CallsFor(g, a, row, prices, markets, orderType, lot, intent)
    requires FilledWhole(c, a, OrderFor(intent, ""), prices[intent.symbol])
    requires Frictionless(c, intent.quantity, prices[intent.symbol])
    ensures var o := OrderFor(intent, "");
            var again := Revalidated(g, AfterWhole(c, a, o, prices[intent.symbol]), row, prices, markets, orderType,
                                     lot);
            again.Ok? && again.value.intent.None?
  {
    hide ContextOf, AfterWhole, Friction, FilledWhole, Revalidated, TargetQuantity, Product, Frictionless;
    var o := OrderFor(intent, "");
    CallUnfolded(g, a, row, prices, markets, orderType, lot, intent);
    FrictionlessCostsNothing(c, o.side, o.quantity, prices[o.symbol]);
    SecondOrderCondition(c, g, a, row, prices, markets, orderType, lot, intent);
    LargestLotMultiple(ContextOf(a, prices, markets, intent.symbol).value.accountValue,
                       row.targetWeight.value, prices[intent.symbol], lot);
  }

  // ----- The premises can be met

  const FREE := Rates(0.0, 0.0, 0.0, 1.0)
  const HALF_ROW := Row("A", Some(0.5), true)
  const HALF := Intent("A", Buy, 50.0, Market, None)

  lemma CashContext()
    ensures ContextOf(HUNDRED, UNIT_PRICE, map[], "A") == Some(RiskContext(100.0, 0.0, 0.0, ""))
  {
    assert Worth(map[], UNIT_PRICE) == map[];
    StripOfEmpty();
  }

  lemma HalfFill()
    ensures FilledWhole(FREE, HUNDRED, OrderFor(HALF, ""), 1.0) && Frictionless(FREE, 50.0, 1.0)
  {
    assert Gross(FREE, Buy, 50.0, 1.0) == 50.0;
    assert Fee(FREE, Buy, 50.0, 1.0) == 0.0;
    ProductOne(50.0);
    hide Gross, Fee, Product;
  }

  /** A first rebalance of 100 in cash to one half: every premise of the lemmas above holds of it. */
  lemma PremisesCanBeMet()
    ensures CallsFor(HALF_LIMIT, HUNDRED, HALF_ROW, UNIT_PRICE, map[], Market, 1.0, HALF)
    ensures FilledWhole(FREE, HUNDRED, OrderFor(HALF, ""), 1.0) && Frictionless(FREE, 50.0, 1.0)
    ensures ReserveCoversCosts(FREE, HALF_LIMIT.limits.minCashReserve)
  {
    CashContext();
    HalfFill();
    assert CostFactor(FREE) == 1.0;
    ProductOne(0.9);
    ProductOne(50.0);
    assert Strip("A") == "A" by {
      assert DropLeadingSpace("A") == "A" && DropTrailingSpace("A") == "A";
    }
    assert Lots(100.0, 0.5, 1.0, 1.0) == 50;
    hide ContextOf, Strip, Product, Lots, CostFactor, FilledWhole, Frictionless;
  }
}
