/** What engine and gateway reply, charge and pay, in terms of order, price and rates alone (`execution.py`). */
module FillTerms {
  import opened Base
  import opened Money
  import opened Orders
  import opened Execution
  import opened Equity
  import opened GatewayRuns

  // ----- The engine

  /** A limit order is marketable unless it would buy above, or sell below, its limit. */
  predicate Marketable(o: Order, price: real) {
    o.orderType == Limit ==>
      o.limitPrice.Some? && (if o.side == Buy then price <= o.limitPrice.value else o.limitPrice.value <= price)
  }

  predicate EngineArguments(c: Rates, o: Order, price: real) {
    && 0.0 < o.quantity && 0.0 < price
    && 0.0 <= c.slippageBps && 0.0 < c.maxFillRatio <= 1.0
    && Marketable(o, price)
  }

  /** The error names the first check that fails. */
  predicate NamesTheCheck(c: Rates, o: Order, price: real, error: Error) {
    if !(0.0 < o.quantity && 0.0 < price) then error == NonPositiveOrder
    else if !(0.0 <= c.slippageBps && 0.0 < c.maxFillRatio <= 1.0) then error == InvalidParameters
    else if o.limitPrice.None? then error == LimitPriceRequired
    else error == NotMarketable
  }

  /** The engine looks at an order exactly when its arguments are in range and a limit order is marketable. */
  lemma RefusedExactly(c: Rates, a: Account, o: Order, price: real, available: Option<real>)
    ensures var (after, r) := Matched(c, a, o, price, available);
            && (EngineArguments(c, o, price) <==> r.Ok? || r.error in {InsufficientCash, InsufficientPosition})
            && (!EngineArguments(c, o, price) ==> after == a && NamesTheCheck(c, o, price, r.error))
  {
    hide FillQuantity, Covered, Traded, FillPrice, Fee, Tax;
  }

  /** The share of the order that is filled: the fill ratio of it, but no more than is available. */
  predicate FilledShare(c: Rates, wanted: real, available: Option<real>, quantity: real) {
    && quantity <= wanted * c.maxFillRatio && (available.Some? ==> quantity <= available.value)
    && (quantity == wanted * c.maxFillRatio || Some(quantity) == available)
  }

  /** The amounts of a fill of `quantity` at `fillPrice`: each truncated to whole cents, and a tax on a SELL alone. */
  ghost predicate Charged(
    c: Rates, side: Side, quantity: real, fillPrice: real, gross: real, fee: real, tax: real)
  {
    && Truncates(gross, Product(quantity, fillPrice)) && Truncates(fee, Product(gross, c.fee))
    && if side == Buy then tax == 0.0 else Truncates(tax, Product(gross, c.sellTax))
  }

  /** The price moves against the trader by the slippage. */
  predicate Slipped(c: Rates, side: Side, price: real, fillPrice: real) {
    fillPrice == if side == Buy then price * (1.0 + c.slippageBps / 10000.0)
      else price * (1.0 - c.slippageBps / 10000.0)
  }

  lemma AmountsOf(c: Rates, side: Side, quantity: real, price: real)
    ensures Slipped(c, side, price, FillPrice(c, side, price))
    ensures Charged(c, side, quantity, FillPrice(c, side, price), Gross(c, side, quantity, price),
                    Fee(c, side, quantity, price), Tax(c, side, quantity, price))
  {
    hide FillPrice, Cents, Truncates;
    SlippedAsStated(c, side, price);
    var gross := Gross(c, side, quantity, price);
    CentsTruncate(quantity, FillPrice(c, side, price));
    CentsTruncate(gross, c.fee);
    CentsTruncate(gross, c.sellTax);
  }

  lemma CentsTruncate(amount: real, rate: real)
    ensures Truncates(Cents(amount, rate), Product(amount, rate))
  {
    RoundDownTruncates(amount * rate);
    hide Truncates, RoundDown;
  }

  lemma SlippedAsStated(c: Rates, side: Side, price: real)
    ensures Slipped(c, side, price, FillPrice(c, side, price))
  {
  }

  /**
   * Every call whose arguments pass: the quantity filled, the price, the charges, and what they do to cash and
   * position. A BUY fails exactly when gross and fee exceed the cash, a SELL exactly when more is filled than held.
   */
  lemma EngineTerms(c: Rates, a: Account, o: Order, price: real, available: Option<real>)
    returns (quantity: real, fillPrice: real, gross: real, fee: real, tax: real)
    requires EngineArguments(c, o, price)
    ensures FilledShare(c, o.quantity, available, quantity)
    ensures Slipped(c, o.side, price, fillPrice) && Charged(c, o.side, quantity, fillPrice, gross, fee, tax)
    ensures var (after, r) := Matched(c, a, o, price, available);
            var held := GetOr(a.positions, o.symbol, 0.0);
            if quantity <= 0.0 then
              after == a && r == Ok(Fill(o.clientOrderId, o.symbol, o.side, 0.0, price, 0.0, 0.0, Rejected))
            else if o.side == Buy && a.cash < gross + fee then after == a && r == Err(InsufficientCash)
            else if o.side == Sell && held < quantity then after == a && r == Err(InsufficientPosition)
            else
              && r == Ok(Fill(o.clientOrderId, o.symbol, o.side, quantity, fillPrice, fee, tax,
                              if quantity == o.quantity then Filled else PartiallyFilled))
              && after.cash == (if o.side == Buy then a.cash - gross - fee else a.cash + gross - fee - tax)
              && after.positions
                 == a.positions[o.symbol := if o.side == Buy then held + quantity else held - quantity]
  {
    quantity := FillQuantity(c, o.quantity, available);
    fillPrice := FillPrice(c, o.side, price);
    gross, fee := Gross(c, o.side, quantity, price), Fee(c, o.side, quantity, price);
    tax := Tax(c, o.side, quantity, price);
    AmountsOf(c, o.side, quantity, price);
    hide Charged, Slipped, Gross, Fee, Tax, FillPrice;
  }

  /** A SELL brings in the exact amount less slippage, fee and tax, to within two cents. */
  lemma SellProceeds(c: Rates, a: Account, o: Order, price: real, available: Option<real>)
    requires o.side == Sell && EngineArguments(c, o, price) && SoundRates(c)
    requires Matched(c, a, o, price, available).1.Ok?
    ensures var (after, r) := Matched(c, a, o, price, available);
            var slipped := price * (1.0 - c.slippageBps / 10000.0);
            var exact := Product(Product(r.value.quantity, slipped), 1.0 - c.fee - c.sellTax);
            0.0 < r.value.quantity ==> exact - 0.01 < after.cash - a.cash < exact + 0.02
  {
    hide Matched, Truncates, Product;
    var quantity, fillPrice, gross, fee, tax := EngineTerms(c, a, o, price, available);
    if 0.0 < quantity {
      SlippedPrice(c, Sell, price);
      SlippedAsStated(c, Sell, price);
      SlippedAmount(quantity, fillPrice, fillPrice);
      ProceedsWithin(Product(quantity, fillPrice), gross, fee, tax, c.fee, c.sellTax);
    }
  }

  lemma ProceedsWithin(exact: real, gross: real, fee: real, tax: real, feeRate: real, taxRate: real)
    requires 0.0 <= exact && 0.0 <= feeRate && 0.0 <= taxRate && feeRate + taxRate <= 1.0
    requires Truncates(gross, exact)
    requires Truncates(fee, Product(gross, feeRate)) && Truncates(tax, Product(gross, taxRate))
    ensures var whole := Product(exact, 1.0 - feeRate - taxRate); whole - 0.01 < gross - fee - tax < whole + 0.02
  {
    hide Product;
    var rate := 1.0 - feeRate - taxRate;
    ProductNonNegative(gross, feeRate);
    ProductNonNegative(gross, taxRate);
    ProductSum(gross, rate, feeRate + taxRate);
    ProductSum(gross, feeRate, taxRate);
    assert rate + (feeRate + taxRate) == 1.0;
    ProductOne(gross);
    ProductBetween(gross, rate, exact + -0.01, exact);
    if 0.0 < rate {
      ProductStrict(exact + -0.01, gross, rate);
    }
    ProductZero(exact);
    ProductSum(rate, exact, -0.01);
    ProductBetween(rate, 0.01, 0.0, 1.0);
    ProductOrder(-0.01, rate, 1.0);
    ProductOrder(0.01, rate, 1.0);
    Negated(rate, 0.01);
    ProductOne(0.01);
  }

  lemma ProductNonNegative(amount: real, rate: real)
    requires 0.0 <= amount && 0.0 <= rate
    ensures 0.0 <= Product(amount, rate)
  {
    MulMonotone(0.0, amount, rate);
  }

  lemma Negated(a: real, b: real)
    ensures Product(a, -b) == -Product(a, b)
  {
  }

  // ----- The gateway

  /** The id belongs to a record of the same symbol, side and quantity. */
  predicate SameOrder(known: OrderRecord, o: Order) {
    known.symbol == o.symbol && known.side == o.side && known.quantity == o.quantity
  }

  /** The engine is not called in the live mode, without an id, for an id of another order, or for a finished one. */
  predicate AnsweredAtOnce(mode: Mode, d: Desk, o: Order) {
    || mode == RealLive || o.clientOrderId == ""
    || (o.clientOrderId in d.orders
        && var known := d.orders[o.clientOrderId];
           || !SameOrder(known, o)
           || known.status in {Filled, Canceled, Rejected} || known.quantity <= known.filled)
  }

  predicate AnswersAtOnce(mode: Mode, d: Desk, o: Order, price: real, r: Result<Fill, Error>) {
    if mode == RealLive then r == Err(LiveRefused)
    else if o.clientOrderId == "" then r == Err(MissingClientOrderId)
    else
      o.clientOrderId in d.orders
      && var known := d.orders[o.clientOrderId];
         if !SameOrder(known, o) then r == Err(IdReused)
         else r == Ok(Fill(o.clientOrderId, o.symbol, o.side, known.filled, price, 0.0, 0.0, known.status))
  }

  /** What is left to execute of the order, and of its record. */
  function Outstanding(d: Desk, o: Order): (known: OrderRecord)
  {
    if o.clientOrderId in d.orders then d.orders[o.clientOrderId]
    else OrderRecord(o.clientOrderId, o.symbol, o.side, o.quantity, 0.0, New)
  }

  /** The record after the engine's answer: more is filled, or nothing was available and it is cancelled. */
  predicate RecordedAs(known: OrderRecord, now: OrderRecord, answer: Result<Fill, Error>) {
    if answer.Err? then now == known
    else if answer.value.quantity <= 0.0 then now == known.(status := Canceled)
    else
      var filled := known.filled + answer.value.quantity;
      now == known.(filled := filled, status := if filled == known.quantity then Filled else PartiallyFilled)
  }

  /**
   * A call that is answered at once changes nothing; a finished order is answered with its filled quantity and status.
   */
  lemma AnswerAtOnce(c: Rates, mode: Mode, d: Desk, o: Order, price: real, available: Option<real>)
    requires AnsweredAtOnce(mode, d, o)
    ensures var (after, r) := Executed(c, mode, d, o, price, available);
            after == d && AnswersAtOnce(mode, d, o, price, r)
  {
    hide Delivered;
  }

  /**
   * Every other gateway call hands the outstanding quantity to the engine: the account is what the engine makes of it,
   * the record is the one of the answer, no other record changes, and the reply is the engine's, with the status of the
   * record when something was filled.
   */
  lemma GatewayTerms(c: Rates, mode: Mode, d: Desk, o: Order, price: real, available: Option<real>)
    requires !AnsweredAtOnce(mode, d, o)
    ensures var (after, r) := Executed(c, mode, d, o, price, available);
            var known, id := Outstanding(d, o), o.clientOrderId;
            var (account, answer) :=
              Matched(c, d.account, o.(quantity := known.quantity - known.filled), price, available);
            && after.account == account
            && id in after.orders && RecordedAs(known, after.orders[id], answer)
            && after.orders == d.orders[id := after.orders[id]]
            && r == if answer.Ok? && 0.0 < answer.value.quantity
                    then Ok(answer.value.(status := after.orders[id].status)) else answer
  {
    hide Matched;
    var known := Outstanding(d, o);
    var effective := o.(quantity := known.quantity - known.filled);
    AnswerShape(c, d.account, effective, price, available);
    assert known.filled + effective.quantity == known.quantity;
  }

  lemma AnswerShape(c: Rates, a: Account, o: Order, price: real, available: Option<real>)
    ensures var r := Matched(c, a, o, price, available).1;
            r.Ok? ==> r.value.quantity <= o.quantity && (r.value.quantity <= 0.0 ==> r.value.status == Rejected)
                      && (0.0 < r.value.quantity ==>
                            r.value.status == if r.value.quantity == o.quantity then Filled else PartiallyFilled)
  {
    hide Traded, Covered, FillPrice, Fee, Tax, FillQuantity;
    if Refusal(c, o, price).None? {
      FillQuantityBounded(c, o.quantity, available);
    }
  }
}
