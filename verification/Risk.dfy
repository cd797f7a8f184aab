/** The pre-trade risk gate (`risk.py`). */
module Risk {
  import opened Base
  import opened Money
  import opened Orders
  import opened Execution
  import opened GatewayRuns

  datatype Limits = Limits(
    maxOrderNotional: real, maxPositionNotional: real, maxDailyLoss: real, maxPortfolioNotional: real,
    maxMarketExposure: real, minCashReserve: real)

  /** The checks `RiskLimits` makes on construction. */
  predicate ValidLimits(l: Limits) {
    && 0.0 <= l.maxOrderNotional && 0.0 <= l.maxPositionNotional
    && 0.0 <= l.maxDailyLoss && 0.0 <= l.maxPortfolioNotional
    && 0.0 <= l.maxMarketExposure <= 1.0 && 0.0 <= l.minCashReserve <= 1.0
  }

  /** `market` is the empty string when the target's market is not known. */
  datatype RiskContext = RiskContext(accountValue: real, portfolioNotional: real, marketNotional: real, market: string)

  datatype RiskError =
    | BreakerTripped | InvalidOrder | OrderNotional | DailyLoss | InvalidAccountValue | CashReserve
    | SellExceedsHolding | PositionNotional
    | InvalidContext | NegativeMarketExposure | MarketExposure | NegativePortfolio | PortfolioNotional

  datatype Verdict = Approved | Denied(reason: RiskError)

  /** The mutable part of the gate next to the limits. */
  datatype Gate = Gate(limits: Limits, tripped: bool, dailyPnl: real)

  function Notional(o: Order, price: real): (r: real) {
    Product(o.quantity, price)
  }

  function Projected(a: Account, o: Order): (r: real) {
    if o.side == Buy then Held(a, o.symbol) + o.quantity else Held(a, o.symbol) - o.quantity
  }

  function CashVerdict(g: Gate, a: Account, o: Order, price: real, accountValue: Option<real>): (r: Verdict) {
    var base := if accountValue.None? then a.cash else accountValue.value;
    if o.side == Sell then Approved
    else if base <= 0.0 then Denied(InvalidAccountValue)
    else if (a.cash - Notional(o, price)) / base <= g.limits.minCashReserve then Denied(CashReserve)
    else Approved
  }

  /** `RiskGuardian.approve`, first failing check first. */
  function Approval(g: Gate, a: Account, o: Order, price: real, accountValue: Option<real>): (r: Verdict) {
    if g.tripped then Denied(BreakerTripped)
    else if o.quantity <= 0.0 || price <= 0.0 then Denied(InvalidOrder)
    else if Notional(o, price) > g.limits.maxOrderNotional then Denied(OrderNotional)
    else if g.dailyPnl <= -g.limits.maxDailyLoss then Denied(DailyLoss)
    else if CashVerdict(g, a, o, price, accountValue).Denied? then CashVerdict(g, a, o, price, accountValue)
    else if Projected(a, o) < 0.0 then Denied(SellExceedsHolding)
    else if Product(Projected(a, o), price) > g.limits.maxPositionNotional then Denied(PositionNotional)
    else Approved
  }

  function Shift(o: Order, price: real): (r: real) {
    if o.side == Buy then Notional(o, price) else -Notional(o, price)
  }

  function MarketVerdict(g: Gate, o: Order, price: real, ctx: RiskContext): (r: Verdict) {
    var projected := ctx.marketNotional + Shift(o, price);
    if ctx.market == "" || ctx.accountValue <= 0.0 then Approved
    else if projected < 0.0 then Denied(NegativeMarketExposure)
    else if projected / ctx.accountValue >= g.limits.maxMarketExposure then Denied(MarketExposure)
    else Approved
  }

  function PortfolioVerdict(g: Gate, o: Order, price: real, ctx: RiskContext): (r: Verdict) {
    var projected := ctx.portfolioNotional + Shift(o, price);
    if projected < 0.0 then Denied(NegativePortfolio)
    else if projected > g.limits.maxPortfolioNotional then Denied(PortfolioNotional)
    else Approved
  }

  /** `RiskGuardian.approve_portfolio` */
  function PortfolioApproval(g: Gate, a: Account, o: Order, price: real, ctx: RiskContext): (r: Verdict) {
    if ctx.accountValue <= 0.0 || ctx.portfolioNotional < 0.0 || ctx.marketNotional < 0.0 then Denied(InvalidContext)
    else if Approval(g, a, o, price, Some(ctx.accountValue)).Denied?
      then Approval(g, a, o, price, Some(ctx.accountValue))
    else if MarketVerdict(g, o, price, ctx).Denied? then MarketVerdict(g, o, price, ctx)
    else PortfolioVerdict(g, o, price, ctx)
  }

  class RiskGuardian {
    const account: PaperAccount
    const limits: Limits
    var tripped: bool
    var dailyPnl: real

    constructor (account: PaperAccount, limits: Limits)
      ensures this.account == account && Value() == Gate(limits, false, 0.0)
    {
      this.account, this.limits, tripped, dailyPnl := account, limits, false, 0.0;
    }

    function Value(): (r: Gate)
      reads this
    {
      Gate(limits, tripped, dailyPnl)
    }

    method Approve(order: Order, price: real, accountValue: Option<real>) returns (v: Verdict)
      ensures v == Approval(Value(), account.Value(), order, price, accountValue)
    {
      if tripped {
        return Denied(BreakerTripped);
      }
      if order.quantity <= 0.0 || price <= 0.0 {
        return Denied(InvalidOrder);
      }
      var notional := Product(order.quantity, price);
      if notional > limits.maxOrderNotional {
        return Denied(OrderNotional);
      }
      if dailyPnl <= -limits.maxDailyLoss {
        return Denied(DailyLoss);
      }
      if order.side == Buy {
        var baseValue := if accountValue.None? then account.cash else accountValue.value;
        if baseValue <= 0.0 {
          return Denied(InvalidAccountValue);
        }
        if (account.cash - notional) / baseValue <= limits.minCashReserve {
          return Denied(CashReserve);
        }
      }
      var current := GetOr(account.positions, order.symbol, 0.0);
      var projected := if order.side == Buy then current + order.quantity else current - order.quantity;
      if projected < 0.0 {
        return Denied(SellExceedsHolding);
      }
      if Product(projected, price) > limits.maxPositionNotional {
        return Denied(PositionNotional);
      }
      v := Approved;
    }

    method ApprovePortfolio(order: Order, price: real, context: RiskContext) returns (v: Verdict)
      ensures v == PortfolioApproval(Value(), account.Value(), order, price, context)
    {
      if context.accountValue <= 0.0 || context.portfolioNotional < 0.0 || context.marketNotional < 0.0 {
        return Denied(InvalidContext);
      }
      var notional := Product(order.quantity, price);
      v := Approve(order, price, Some(context.accountValue));
      if v.Denied? {
        return;
      }
      if context.market != "" && context.accountValue > 0.0 {
        var projected := context.marketNotional + (if order.side == Buy then notional else -notional);
        if projected < 0.0 {
          return Denied(NegativeMarketExposure);
        }
        if projected / context.accountValue >= limits.maxMarketExposure {
          return Denied(MarketExposure);
        }
      }
      var projected := context.portfolioNotional + (if order.side == Buy then notional else -notional);
      if projected < 0.0 {
        return Denied(NegativePortfolio);
      }
      if projected > limits.maxPortfolioNotional {
        return Denied(PortfolioNotional);
      }
      v := Approved;
    }
  }

  // ----- What approval rules out

  /** Order, cash, position and the day's loss are within their limits; `base` is what the cash is measured against. */
  predicate WithinLimits(g: Gate, a: Account, o: Order, price: real, base: real) {
    var held, notional := GetOr(a.positions, o.symbol, 0.0), Product(o.quantity, price);
    && !g.tripped && 0.0 < o.quantity && 0.0 < price
    && notional <= g.limits.maxOrderNotional && -g.limits.maxDailyLoss < g.dailyPnl
    && (o.side == Buy ==> 0.0 < base && (a.cash - notional) / base > g.limits.minCashReserve)
    && var after := if o.side == Buy then held + o.quantity else held - o.quantity;
       0.0 <= after && Product(after, price) <= g.limits.maxPositionNotional
  }

  /** The check that a denial names has failed. */
  predicate FailedCheck(g: Gate, a: Account, o: Order, price: real, base: real, reason: RiskError) {
    var held, notional := GetOr(a.positions, o.symbol, 0.0), Product(o.quantity, price);
    match reason
    case BreakerTripped => g.tripped
    case InvalidOrder => o.quantity <= 0.0 || price <= 0.0
    case OrderNotional => g.limits.maxOrderNotional < notional
    case DailyLoss => g.dailyPnl <= -g.limits.maxDailyLoss
    case InvalidAccountValue => o.side == Buy && base <= 0.0
    case CashReserve => o.side == Buy && base != 0.0 && (a.cash - notional) / base <= g.limits.minCashReserve
    case SellExceedsHolding =>
      if o.side == Buy then held + o.quantity < 0.0 else held < o.quantity
    case PositionNotional =>
      g.limits.maxPositionNotional
      < (if o.side == Buy then Product(held + o.quantity, price) else Product(held - o.quantity, price))
    case _ => false
  }

  /**
   * The gate approves an order exactly when all limits hold, measuring cash against the account value, or the cash
   * itself when none is given; a denial names a check that failed; and a tripped breaker denies everything.
   */
  lemma ApprovedExactly(g: Gate, a: Account, o: Order, price: real, accountValue: Option<real>)
    ensures var v := Approval(g, a, o, price, accountValue);
            var base := if accountValue.None? then a.cash else accountValue.value;
            && (v == Approved <==> WithinLimits(g, a, o, price, base))
            && (v.Denied? ==> FailedCheck(g, a, o, price, base, v.reason))
            && (g.tripped ==> v == Denied(BreakerTripped))
  {
    hide Product;
  }

  /** The exposure of the market and of the portfolio after the order, at the price before slippage. */
  predicate WithinExposure(g: Gate, o: Order, price: real, ctx: RiskContext) {
    var moved := if o.side == Buy then Product(o.quantity, price) else -Product(o.quantity, price);
    && 0.0 < ctx.accountValue && 0.0 <= ctx.portfolioNotional && 0.0 <= ctx.marketNotional
    && 0.0 <= ctx.portfolioNotional + moved <= g.limits.maxPortfolioNotional
    && (ctx.market != "" ==>
          && 0.0 <= ctx.marketNotional + moved
          && (ctx.marketNotional + moved) / ctx.accountValue < g.limits.maxMarketExposure)
  }

  predicate FailedExposure(g: Gate, o: Order, price: real, ctx: RiskContext, reason: RiskError) {
    var moved := if o.side == Buy then Product(o.quantity, price) else -Product(o.quantity, price);
    match reason
    case InvalidContext => ctx.accountValue <= 0.0 || ctx.portfolioNotional < 0.0 || ctx.marketNotional < 0.0
    case NegativeMarketExposure => ctx.market != "" && ctx.marketNotional + moved < 0.0
    case MarketExposure =>
      && ctx.market != "" && ctx.accountValue != 0.0
      && g.limits.maxMarketExposure <= (ctx.marketNotional + moved) / ctx.accountValue
    case NegativePortfolio => ctx.portfolioNotional + moved < 0.0
    case PortfolioNotional => g.limits.maxPortfolioNotional < ctx.portfolioNotional + moved
    case _ => false
  }

  /** Likewise with a context, which adds the limits on the market and on the portfolio. */
  lemma PortfolioApprovedExactly(g: Gate, a: Account, o: Order, price: real, ctx: RiskContext)
    ensures var v := PortfolioApproval(g, a, o, price, ctx);
            && (v == Approved <==> WithinLimits(g, a, o, price, ctx.accountValue) && WithinExposure(g, o, price, ctx))
            && (v.Denied? ==>
                  || FailedCheck(g, a, o, price, ctx.accountValue, v.reason)
                  || FailedExposure(g, o, price, ctx, v.reason))
            && (g.tripped ==> v == Denied(BreakerTripped) || v == Denied(InvalidContext))
  {
    hide Product, Approval, WithinLimits;
    ApprovedExactly(g, a, o, price, Some(ctx.accountValue));
  }

  // ----- Approval against fillability

  /** One unit of notional costs this much with slippage and fee on top. */
  function CostFactor(c: Rates): (r: real) {
    Product(1.0 + c.slippageBps / 10000.0, 1.0 + c.fee)
  }

  /** What one unit of the largest approvable notional costs, given that only the fill ratio of it is bought. */
  function CostShare(c: Rates, reserve: real): (share: real) {
    Product(c.maxFillRatio, Product(1.0 - reserve, CostFactor(c)))
  }

  /** What the cash reserve and the fill ratio keep back covers what slippage and fee add. */
  predicate ReserveCoversCosts(c: Rates, reserve: real) {
    CostShare(c, reserve) <= 1.0
  }

  /** A reserve that covers the costs of a whole fill covers them for every fill ratio. */
  lemma WholeFillCoversAll(c: Rates, reserve: real)
    requires 0.0 < c.maxFillRatio <= 1.0 && Product(1.0 - reserve, CostFactor(c)) <= 1.0
    ensures ReserveCoversCosts(c, reserve)
  {
    var whole := Product(1.0 - reserve, CostFactor(c));
    hide CostFactor, Product;
    ProductBetween(whole, c.maxFillRatio, whole, 1.0);
    ProductOne(c.maxFillRatio);
    ProductOrder(c.maxFillRatio, whole, 0.0);
  }

  /** A BUY fill costs its notional with slippage and fee on top, less up to 2 + fee cents lost to truncation. */
  lemma BuyCost(c: Rates, quantity: real, price: real)
    requires 0.0 <= c.fee && 0.0 <= c.slippageBps && 0.0 <= quantity && 0.0 < price
    ensures var cost := Gross(c, Buy, quantity, price) + Fee(c, Buy, quantity, price);
            var exact := Product(Product(quantity, price), CostFactor(c));
            exact - 0.01 * (2.0 + c.fee) < cost <= exact
  {
    hide Product, FillPrice;
    var slip := 1.0 + c.slippageBps / 10000.0;
    SlippedNotional(c, quantity, price);
    FeeOnTop(Gross(c, Buy, quantity, price), Product(Product(quantity, price), slip), c.fee);
    ProductOrder(Product(quantity, price), slip, 1.0 + c.fee);
  }

  lemma SlippedNotional(c: Rates, quantity: real, price: real)
    requires 0.0 <= c.slippageBps && 0.0 <= quantity && 0.0 < price
    ensures 0.0 <= quantity * FillPrice(c, Buy, price)
                == Product(Product(quantity, price), 1.0 + c.slippageBps / 10000.0)
  {
    var slip := 1.0 + c.slippageBps / 10000.0;
    assert FillPrice(c, Buy, price) == Product(price, slip);
    ProductOrder(quantity, price, slip);
    MulMonotone(0.0, slip, price);
    MulMonotone(0.0, Product(price, slip), quantity);
  }

  lemma FeeOnTop(gross: real, exact: real, fee: real)
    requires 0.0 <= gross <= exact < gross + 0.01 && 0.0 <= fee
    ensures Product(exact, 1.0 + fee) - 0.01 * (2.0 + fee) < gross + Cents(gross, fee) <= Product(exact, 1.0 + fee)
  {
    hide Product, Cents;
    var rate, low := 1.0 + fee, exact + -0.01;
    ProductSum(gross, 1.0, fee);
    ProductOne(gross);
    ProductBetween(gross, rate, low, exact);
    ProductSum(rate, exact, -0.01);
    ProductBetween(gross, fee, 0.0, gross);
    CentsWithin(gross, fee);
  }

  lemma CentsWithin(gross: real, fee: real)
    requires 0.0 <= gross && 0.0 <= fee
    ensures Cents(gross, fee) <= Product(gross, fee) < Cents(gross, fee) + 0.01
    ensures Product(-0.01, 1.0 + fee) == -0.01 - 0.01 * fee
  {
    MulMonotone(0.0, fee, gross);
  }

  lemma ReserveKeptBack(cash: real, notional: real, base: real, reserve: real)
    requires 0.0 < base && cash <= base && 0.0 <= reserve && 0.0 <= notional
    requires (cash - notional) / base > reserve
    ensures 0.0 < cash && notional < Product(1.0 - reserve, cash)
  {
    assert cash - notional > reserve * base;
    MulMonotone(0.0, base, reserve);
    MulMonotone(cash, base, reserve);
  }

  lemma FactorAtLeastOne(c: Rates)
    requires 0.0 <= c.fee && 0.0 <= c.slippageBps
    ensures 1.0 <= CostFactor(c)
  {
    MulMonotone(1.0, 1.0 + c.fee, 1.0 + c.slippageBps / 10000.0);
  }

  /**
   * An approved market BUY never fails for lack of cash, whatever the fill ratio and the available quantity,
   * when the reserve covers the costs and the approval's account value is no less than the cash.
   */
  lemma ApprovedBuyIsAffordable(
    c: Rates, g: Gate, a: Account, o: Order, price: real, accountValue: Option<real>, available: Option<real>)
    requires 0.0 <= c.fee && 0.0 <= g.limits.minCashReserve && ReserveCoversCosts(c, g.limits.minCashReserve)
    requires accountValue.Some? ==> a.cash <= accountValue.value
    requires o.side == Buy && Approval(g, a, o, price, accountValue) == Approved
    ensures Matched(c, a, o, price, available).1 != Err(InsufficientCash)
  {
    hide Gross, Fee, Product, CostFactor, CostShare, Approval, FillQuantity, Traded;
    var quantity := FillQuantity(c, o.quantity, available);
    if Refusal(c, o, price).None? && 0.0 < quantity {
      FilledShare(c, o.quantity, available);
      BuyCost(c, quantity, price);
      ApprovedCash(g, a, o, price, accountValue);
      AffordableNotional(c, g.limits.minCashReserve, a.cash, if accountValue.None? then a.cash else accountValue.value,
                         quantity, o.quantity, price);
    }
  }

  lemma FilledShare(c: Rates, quantity: real, available: Option<real>)
    ensures FillQuantity(c, quantity, available) <= Product(quantity, c.maxFillRatio)
  {
  }

  lemma ApprovedCash(g: Gate, a: Account, o: Order, price: real, accountValue: Option<real>)
    requires o.side == Buy && Approval(g, a, o, price, accountValue) == Approved
    ensures var base := if accountValue.None? then a.cash else accountValue.value;
            && 0.0 < base && 0.0 < o.quantity && 0.0 < price
            && (a.cash - Product(o.quantity, price)) / base > g.limits.minCashReserve
  {
    hide Product;
  }

  lemma AffordableNotional(c: Rates, reserve: real, cash: real, base: real, quantity: real, ordered: real, price: real)
    requires 0.0 <= c.fee && 0.0 <= c.slippageBps && 0.0 <= reserve && ReserveCoversCosts(c, reserve)
    requires 0.0 < c.maxFillRatio && 0.0 < base && cash <= base && 0.0 < ordered && 0.0 < price
    requires 0.0 < quantity <= Product(ordered, c.maxFillRatio)
    requires (cash - Product(ordered, price)) / base > reserve
    ensures Product(Product(quantity, price), CostFactor(c)) <= cash
  {
    var notional, factor, ratio := Product(ordered, price), CostFactor(c), c.maxFillRatio;
    FactorAtLeastOne(c);
    hide CostFactor;
    assert 0.0 <= notional by { MulMonotone(0.0, ordered, price); }
    ReserveKeptBack(cash, notional, base, reserve);
    FilledNotional(quantity, ordered, ratio, price);
    hide Product;
    ProductBetween(Product(quantity, price), factor, Product(quantity, price), Product(notional, ratio));
    ProductBetween(notional, ratio, notional, Product(1.0 - reserve, cash));
    ProductBetween(Product(notional, ratio), factor, Product(notional, ratio),
                   Product(Product(1.0 - reserve, cash), ratio));
    CashShare(1.0 - reserve, cash, ratio, factor);
    ProductBetween(CostShare(c, reserve), cash, CostShare(c, reserve), 1.0);
    ProductOne(cash);
  }

  lemma FilledNotional(quantity: real, ordered: real, ratio: real, price: real)
    requires 0.0 < price && quantity <= Product(ordered, ratio)
    ensures Product(quantity, price) <= Product(Product(ordered, price), ratio)
  {
    MulMonotone(quantity, ordered * ratio, price);
    assert ordered * ratio * price == ordered * price * ratio;
  }

  lemma CashShare(part: real, cash: real, ratio: real, factor: real)
    ensures Product(Product(Product(part, cash), ratio), factor) == Product(Product(ratio, Product(part, factor)), cash)
  {
    assert part * cash * ratio * factor == ratio * (part * factor) * cash;
  }

  /** An approved SELL never fails for lack of position. */
  lemma ApprovedSellIsCovered(
    c: Rates, g: Gate, a: Account, o: Order, price: real, accountValue: Option<real>, available: Option<real>)
    requires o.side == Sell && Approval(g, a, o, price, accountValue) == Approved
    ensures Matched(c, a, o, price, available).1 != Err(InsufficientPosition)
  {
    if Refusal(c, o, price).None? {
      FillQuantityBounded(c, o.quantity, available);
    }
    hide Gross, Fee, Tax;
  }

  // ----- The reserve condition is exact

  /** An account, a gate and a one-unit-price BUY that the gate approves and the account cannot pay for. */
  function Shortfall(c: Rates, reserve: real): (example: (Gate, Account, Order))
    requires 0.0 <= c.fee && CostShare(c, reserve) > 1.0
  {
    var k := CostShare(c, reserve);
    var cash := 0.02 * (2.0 + c.fee) / (k - 1.0);
    var share := Product(1.0 - reserve, (1.0 + k) / (2.0 * k));
    var quantity := Product(share, cash);
    (Gate(Limits(quantity, quantity, 1.0, quantity, 1.0, reserve), false, 0.0),
     Account(cash, map[]), Order("A", Buy, quantity, Market, None, "a"))
  }

  lemma ShortfallNumbers(reserve: real, ratio: real, factor: real, k: real, fee: real, cash: real, share: real)
    requires 0.0 <= reserve <= 1.0 && 0.0 <= fee && 1.0 <= factor && 0.0 < ratio
    requires k == Product(ratio, Product(1.0 - reserve, factor)) && k > 1.0
    requires cash == 0.02 * (2.0 + fee) / (k - 1.0)
    requires share == Product(1.0 - reserve, (1.0 + k) / (2.0 * k))
    ensures 0.0 < cash && 0.0 < share < 1.0 - reserve
    ensures Product(Product(share, ratio), factor) == (1.0 + k) / 2.0
    ensures Product(cash, (1.0 + k) / 2.0) - 0.01 * (2.0 + fee) == cash
  {
    var part := (1.0 + k) / (2.0 * k);
    PartOf(k);
    ReserveIsNotAll(1.0 - reserve, ratio, factor);
    ShareOfRatio(1.0 - reserve, part, ratio, factor);
    CashNumbers(k, fee, cash);
    hide Product;
    ProductStrict(part, 1.0, 1.0 - reserve);
    ProductStrict(0.0, part, 1.0 - reserve);
    ProductOrder(part, 1.0 - reserve, 0.0);
    ProductOne(1.0 - reserve);
    ProductZero(1.0 - reserve);
  }

  lemma PartOf(k: real)
    requires k > 1.0
    ensures 0.0 < (1.0 + k) / (2.0 * k) < 1.0
    ensures Product((1.0 + k) / (2.0 * k), k) == (1.0 + k) / 2.0
  {
  }

  lemma ReserveIsNotAll(kept: real, ratio: real, factor: real)
    requires 0.0 <= kept && Product(ratio, Product(kept, factor)) > 1.0
    ensures 0.0 < kept
  {
  }

  lemma ShareOfRatio(kept: real, part: real, ratio: real, factor: real)
    ensures Product(Product(Product(kept, part), ratio), factor) == Product(part, Product(ratio, Product(kept, factor)))
  {
    assert kept * part * ratio * factor == part * (ratio * (kept * factor));
  }

  lemma CashNumbers(k: real, fee: real, cash: real)
    requires k > 1.0 && 0.0 <= fee && cash == 0.02 * (2.0 + fee) / (k - 1.0)
    ensures 0.0 < cash && Product(cash, (1.0 + k) / 2.0) - 0.01 * (2.0 + fee) == cash
  {
    assert cash * (k - 1.0) == 0.02 * (2.0 + fee);
    assert cash * ((1.0 + k) / 2.0) == cash + cash * (k - 1.0) / 2.0;
  }

  lemma ShortfallFails(c: Rates, reserve: real)
    requires 0.0 <= c.fee && 0.0 <= c.slippageBps && 0.0 < c.maxFillRatio <= 1.0 && 0.0 <= reserve <= 1.0
    requires !ReserveCoversCosts(c, reserve)
    ensures var (g, a, o) := Shortfall(c, reserve);
            && ValidLimits(g.limits) && g.limits.minCashReserve == reserve && o.side == Buy
            && Approval(g, a, o, 1.0, None) == Approved
            && Matched(c, a, o, 1.0, None).1 == Err(InsufficientCash)
  {
    var (g, a, o) := Shortfall(c, reserve);
    var k := CostShare(c, reserve);
    var share := Product(1.0 - reserve, (1.0 + k) / (2.0 * k));
    FactorAtLeastOne(c);
    ShortfallNumbers(reserve, c.maxFillRatio, CostFactor(c), k, c.fee, a.cash, share);
    hide CostFactor, CostShare, Approval, Matched;
    ShortfallApproved(g, a, o, share);
    ShortfallUnpaid(c, a, o, share, (1.0 + k) / 2.0);
  }

  lemma ShortfallApproved(g: Gate, a: Account, o: Order, share: real)
    requires 0.0 < a.cash && a.positions == map[] && o.side == Buy
    requires 0.0 < share < 1.0 - g.limits.minCashReserve && o.quantity == Product(share, a.cash)
    requires !g.tripped && g.dailyPnl == 0.0 && g.limits.maxDailyLoss == 1.0
    requires g.limits.maxOrderNotional == g.limits.maxPositionNotional == o.quantity
    ensures 0.0 < o.quantity
    ensures Approval(g, a, o, 1.0, None) == Approved
  {
    MulStrict(0.0, share, a.cash);
    assert Product(o.quantity, 1.0) == o.quantity;
    ShareLeft(a.cash, share, o.quantity);
  }

  lemma ShareLeft(cash: real, share: real, spent: real)
    requires 0.0 < cash && spent == share * cash
    ensures (cash - spent) / cash == 1.0 - share
  {
    DivideBack(cash - spent, 1.0 - share, cash);
  }

  lemma ShortfallUnpaid(c: Rates, a: Account, o: Order, share: real, excess: real)
    requires 0.0 <= c.fee && 0.0 <= c.slippageBps && 0.0 < c.maxFillRatio <= 1.0
    requires o.side == Buy && o.orderType == Market && 0.0 < o.quantity && o.quantity == Product(share, a.cash)
    requires Product(Product(share, c.maxFillRatio), CostFactor(c)) == excess
    requires Product(a.cash, excess) - 0.01 * (2.0 + c.fee) == a.cash
    ensures Matched(c, a, o, 1.0, None).1 == Err(InsufficientCash)
  {
    var filled := FillQuantity(c, o.quantity, None);
    MulStrict(0.0, c.maxFillRatio, o.quantity);
    assert filled == Product(o.quantity, c.maxFillRatio);
    BuyCost(c, filled, 1.0);
    hide Gross, Fee, CostFactor, Product, FillQuantity;
    ProductOne(filled);
    CashShareOf(share, a.cash, c.maxFillRatio, CostFactor(c));
  }

  lemma CashShareOf(share: real, cash: real, ratio: real, factor: real)
    ensures Product(Product(Product(share, cash), ratio), factor)
            == Product(cash, Product(Product(share, ratio), factor))
  {
    assert share * cash * ratio * factor == cash * (share * ratio * factor);
  }

  /**
   * For every engine, approval implies affordability for every order and account if and only if the reserve covers the
   * costs of what the fill ratio lets it buy.
   */
  lemma ReserveConditionIsExact(c: Rates, reserve: real)
    requires 0.0 <= c.fee && 0.0 <= c.slippageBps && 0.0 < c.maxFillRatio <= 1.0 && 0.0 <= reserve <= 1.0
    ensures ReserveCoversCosts(c, reserve) <==>
            forall g: Gate, a: Account, o: Order, price: real ::
              ValidLimits(g.limits) && g.limits.minCashReserve == reserve && o.side == Buy
              && Approval(g, a, o, price, None) == Approved
              ==> Matched(c, a, o, price, None).1 != Err(InsufficientCash)
  {
    hide ReserveCoversCosts, Approval, Matched;
    if ReserveCoversCosts(c, reserve) {
      forall g: Gate, a: Account, o: Order, price: real
        | ValidLimits(g.limits) && g.limits.minCashReserve == reserve && o.side == Buy
          && Approval(g, a, o, price, None) == Approved
        ensures Matched(c, a, o, price, None).1 != Err(InsufficientCash)
      {
        ApprovedBuyIsAffordable(c, g, a, o, price, None, None);
      }
    } else {
      ShortfallFails(c, reserve);
    }
  }
}
