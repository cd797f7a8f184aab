/** What revalidation, preflight and batch make of a row, in terms of the row and the account (`trade_facade.py`). */
module FacadeTerms {
  import opened Base
  import opened Money
  import opened Orders
  import opened Execution
  import opened Equity
  import opened Risk
  import opened ContextBuilder
  import opened TradeFacade
  import opened Ledger
  import opened TradingPipeline
  import opened PaperBatch
  import opened Exposure
  import opened Sizing

  // ----- The context

  /** Without a mapped market a holding counts as unknown, and a target for no market at all. */
  lemma MarketsAsMapped(markets: Markets, symbol: string)
    ensures var mapped := if symbol in markets then Strip(markets[symbol]) else "";
            && MarketOf(markets, symbol) == (if mapped == "" then "UNKNOWN" else mapped)
            && TargetMarket(markets, symbol) == (if symbol == "" then "" else mapped)
  {
    assert Strip("UNKNOWN") == "UNKNOWN" by {
      assert DropLeadingSpace("UNKNOWN") == "UNKNOWN" && DropTrailingSpace("UNKNOWN") == "UNKNOWN";
    }
    StripOfEmpty();
    hide Strip;
  }

  /** What is held at a price, and nothing short, in an account with cash and some value. */
  predicate Valued(a: Account, prices: Prices) {
    && 0.0 <= a.cash
    && forall s :: s in a.positions && a.positions[s] != 0.0 ==> 0.0 < a.positions[s] && s in prices && 0.0 < prices[s]
  }

  /** There is a context exactly for an account of this kind that is worth something, and it says what it is worth. */
  lemma ContextExactly(a: Account, prices: Prices, markets: Markets, target: string)
    ensures var ctx := ContextOf(a, prices, markets, target);
            && (ctx.Some? <==> Valued(a, prices) && 0.0 < a.cash + MarketValue(a.positions, prices))
            && (ctx.Some? ==>
                  && ctx.value.accountValue == a.cash + MarketValue(a.positions, prices)
                  && ctx.value.portfolioNotional == MarketValue(a.positions, prices)
                  && ctx.value.market == TargetMarket(markets, target)
                  && ctx.value.marketNotional
                     == (if ctx.value.market == "" then 0.0
                         else MarketNotional(a.positions, prices, markets, ctx.value.market)))
  {
    hide MarketValue, MarketNotional, TargetMarket;
  }

  // ----- One row

  /** The reason names the first thing that is wrong with a row. */
  predicate RowFails(row: Row, prices: Prices, lot: real, contextual: bool, error: RowError) {
    var symbol := Strip(row.symbol);
    if symbol == "" then error == BlankSymbol
    else if symbol !in prices then error == MissingLatestPrice
    else if prices[symbol] <= 0.0 then error == NonPositiveLatestPrice
    else if !contextual then error == ContextRefused
    else if lot <= 0.0 then error == InvalidArguments
    else if row.targetWeight.None? then error == NotANumber
    else (row.targetWeight.value < 0.0 || 1.0 < row.targetWeight.value) && error == OutOfRange
  }

  /** Nothing is wrong with the row. */
  predicate RowHolds(row: Row, prices: Prices, lot: real, contextual: bool) {
    && Strip(row.symbol) != "" && Strip(row.symbol) in prices && 0.0 < prices[Strip(row.symbol)] && contextual
    && 0.0 < lot && row.targetWeight.Some? && 0.0 <= row.targetWeight.value <= 1.0
  }

  function WholeLots(n: int, lot: real): (quantity: real) {
    n as real * lot
  }

  /** `target` is the largest whole number of lots worth at most the weighted account value. */
  ghost predicate LargestFit(value: real, weight: real, price: real, lot: real, target: real) {
    && (exists n: int :: target == WholeLots(n, lot))
    && Product(target, price) <= Product(value, weight) < Product(target + lot, price)
  }

  /** The order takes what is held to the target, in the type asked for, a limit order at the latest price. */
  predicate Reaches(intent: Intent, symbol: string, held: real, target: real, orderType: OrderType, price: real) {
    && intent.symbol == symbol && 0.0 < intent.quantity
    && target == (if intent.side == Buy then held + intent.quantity else held - intent.quantity)
    && intent.orderType == orderType && intent.limitPrice == if orderType == Limit then Some(price) else None
  }

  ghost predicate RevalidatedTo(
    g: Gate, a: Account, row: Row, prices: Prices, orderType: OrderType, lot: real, ctx: RiskContext, r: Revalidation)
    requires RowHolds(row, prices, lot, true)
  {
    var symbol := Strip(row.symbol);
    var price, held := prices[symbol], GetOr(a.positions, symbol, 0.0);
    && r.context == ctx
    && exists target ::
         && LargestFit(ctx.accountValue, row.targetWeight.value, price, lot, target)
         && (r.intent.None? <==> held == target)
         && (r.intent.None? ==> r.verdict == Approved)
         && (r.intent.Some? ==>
               && Reaches(r.intent.value, symbol, held, target, orderType, price)
               && var i := r.intent.value;
                  var order := Order(i.symbol, i.side, i.quantity, i.orderType, i.limitPrice, "");
                  r.verdict == Approved <==>
                  WithinLimits(g, a, order, price, ctx.accountValue) && WithinExposure(g, order, price, ctx))
  }

  /**
   * Revalidating a row fails by the name of the first thing wrong with it, and otherwise gives the order that takes the
   * holding to the largest lot multiple that fits, or none, with the verdict of all limits on it.
   */
  lemma RevalidatedExactly(
    g: Gate, a: Account, row: Row, prices: Prices, markets: Markets, orderType: OrderType, lot: real)
    ensures var r := Revalidated(g, a, row, prices, markets, orderType, lot);
            var ctx := ContextOf(a, prices, markets, Strip(row.symbol));
            && (r.Ok? <==> RowHolds(row, prices, lot, ctx.Some?))
            && (r.Err? ==> RowFails(row, prices, lot, ctx.Some?, r.error))
            && (r.Ok? ==> RevalidatedTo(g, a, row, prices, orderType, lot, ctx.value, r.value))
  {
    hide ContextOf, PortfolioApproval, Strip, TargetQuantity, LargestFit;
    var symbol := Strip(row.symbol);
    var ctx := ContextOf(a, prices, markets, symbol);
    var r := Revalidated(g, a, row, prices, markets, orderType, lot);
    if ctx.Some? {
      HeldIsNotShort(a, prices, markets, symbol);
    }
    if r.Ok? {
      SizedToFit(symbol, row.targetWeight, prices[symbol], ctx.value.accountValue, a, orderType, lot);
      if r.value.intent.Some? {
        PortfolioApprovedExactly(g, a, OrderFor(r.value.intent.value, ""), prices[symbol], ctx.value);
      }
    }
  }

  lemma HeldIsNotShort(a: Account, prices: Prices, markets: Markets, symbol: string)
    requires ContextOf(a, prices, markets, symbol).Some?
    ensures 0.0 <= GetOr(a.positions, symbol, 0.0) && 0.0 < ContextOf(a, prices, markets, symbol).value.accountValue
  {
    hide MarketValue, MarketNotional, TargetMarket;
  }

  lemma SizedToFit(
    symbol: string, weight: Option<real>, price: real, value: real, a: Account, orderType: OrderType, lot: real)
    requires Sized(symbol, weight, price, value, Held(a, symbol), orderType, lot).Ok?
    ensures weight.Some? && price != 0.0 && lot != 0.0
    ensures var target := TargetQuantity(value, weight.value, price, lot);
            var sized := Sized(symbol, weight, price, value, Held(a, symbol), orderType, lot).value;
            && LargestFit(value, weight.value, price, lot, target)
            && (sized.None? <==> Held(a, symbol) == target)
            && (sized.Some? ==> Reaches(sized.value, symbol, Held(a, symbol), target, orderType, price))
  {
    LargestLotMultiple(value, weight.value, price, lot);
    assert TargetQuantity(value, weight.value, price, lot) == WholeLots(Lots(value, weight.value, price, lot), lot);
    hide Product, Lots, WholeLots;
  }

  // ----- Preflight

  /** The selected row cannot be sized, or its order is denied. */
  ghost predicate Rejects(
    g: Gate, a: Account, row: Row, prices: Prices, markets: Markets, orderType: OrderType, lot: real)
  {
    var r := Revalidated(g, a, row, prices, markets, orderType, lot);
    row.selected && (r.Err? || (r.value.intent.Some? && r.value.verdict != Approved))
  }

  /** The selected row calls for an order, and it is approved. */
  ghost predicate Passes(
    g: Gate, a: Account, row: Row, prices: Prices, markets: Markets, orderType: OrderType, lot: real, r: Revalidation)
  {
    && row.selected && r.intent.Some? && r.verdict == Approved
    && Revalidated(g, a, row, prices, markets, orderType, lot) == Ok(r)
  }

  ghost predicate PassesOneOf(
    g: Gate, a: Account, rows: seq<Row>, prices: Prices, markets: Markets, orderType: OrderType, lot: real,
    r: Revalidation)
  {
    exists row :: row in rows && Passes(g, a, row, prices, markets, orderType, lot, r)
  }

  /**
   * The rejected rows are the selected ones that fail, and the approved orders those of the selected rows that pass.
   */
  lemma PreflightExactly(
    g: Gate, a: Account, rows: seq<Row>, prices: Prices, markets: Markets, orderType: OrderType, lot: real)
    ensures forall row :: row in FailedRows(g, a, rows, prices, markets, orderType, lot) <==>
                          row in rows && Rejects(g, a, row, prices, markets, orderType, lot)
    ensures forall r :: r in PassedRows(g, a, rows, prices, markets, orderType, lot) <==>
                        PassesOneOf(g, a, rows, prices, markets, orderType, lot, r)
  {
    hide Rejects, PassesOneOf, FailedRows, PassedRows;
    RejectedExactly(g, a, rows, prices, markets, orderType, lot);
    forall r
      ensures r in PassedRows(g, a, rows, prices, markets, orderType, lot) <==>
              PassesOneOf(g, a, rows, prices, markets, orderType, lot, r)
    {
      PassedExactly(g, a, rows, prices, markets, orderType, lot, r);
    }
  }

  lemma {:induction false} RejectedExactly(
    g: Gate, a: Account, rows: seq<Row>, prices: Prices, markets: Markets, orderType: OrderType, lot: real)
    ensures forall row :: row in FailedRows(g, a, rows, prices, markets, orderType, lot) <==>
                          row in rows && Rejects(g, a, row, prices, markets, orderType, lot)
  {
    hide Revalidated;
    if rows != [] {
      RejectedExactly(g, a, rows[..|rows| - 1], prices, markets, orderType, lot);
      assert rows == rows[..|rows| - 1] + [rows[|rows| - 1]];
    }
  }

  lemma {:induction false} PassedExactly(
    g: Gate, a: Account, rows: seq<Row>, prices: Prices, markets: Markets, orderType: OrderType, lot: real,
    r: Revalidation)
    ensures r in PassedRows(g, a, rows, prices, markets, orderType, lot) <==>
            PassesOneOf(g, a, rows, prices, markets, orderType, lot, r)
  {
    hide Revalidated, PassesOneOf;
    if rows == [] {
      PassesNothing(g, a, prices, markets, orderType, lot, r);
    } else {
      PassedExactly(g, a, rows[..|rows| - 1], prices, markets, orderType, lot, r);
      PassesOneMore(g, a, rows, prices, markets, orderType, lot, r);
    }
  }

  lemma PassesNothing(
    g: Gate, a: Account, prices: Prices, markets: Markets, orderType: OrderType, lot: real, r: Revalidation)
    ensures !PassesOneOf(g, a, [], prices, markets, orderType, lot, r)
  {
  }

  lemma PassesOneMore(
    g: Gate, a: Account, rows: seq<Row>, prices: Prices, markets: Markets, orderType: OrderType, lot: real,
    r: Revalidation)
    requires rows != []
    ensures var n := |rows| - 1;
            PassesOneOf(g, a, rows, prices, markets, orderType, lot, r) <==>
            || PassesOneOf(g, a, rows[..n], prices, markets, orderType, lot, r)
            || Passes(g, a, rows[n], prices, markets, orderType, lot, r)
  {
    hide Passes;
    assert rows == rows[..|rows| - 1] + [rows[|rows| - 1]];
  }

  // ----- Submitting and settling a row

  /** What is submitted for a row, and when anything is. */
  lemma SubmittedExactly(
    c: Rates, g: Gate, mode: Mode, d: Desk, row: Row, prices: Prices, markets: Markets, orderType: OrderType, lot: real,
    id: string)
    ensures var (after, s) := SubmittedRow(c, g, mode, d, row, prices, markets, orderType, lot, id);
            var r := Revalidated(g, d.account, row, prices, markets, orderType, lot);
            if r.Err? then after == d && s == RowRefused(r.error)
            else if r.value.intent.None? then after == d && s == NothingToDo
            else if r.value.verdict.Denied? then after == d && s == RiskRefused(r.value.verdict.reason)
            else if mode == RealLive then after == d && s == SentLive
            else
              var i, symbol := r.value.intent.value, Strip(row.symbol);
              var order := Order(symbol, i.side, i.quantity, i.orderType, i.limitPrice, id);
              && symbol in prices
              && s.Sent? && (after, s.result) == Executed(c, mode, d, order, prices[symbol], None)
  {
    hide Executed, ContextOf, PortfolioApproval, Strip, TargetQuantity;
  }

  /** The fill counts: something was filled, and it is reported as filled or partially filled. */
  predicate Counts(f: Fill) {
    0.0 < f.quantity && (f.status == Filled || f.status == PartiallyFilled)
  }

  /** A refusal stops the batch by its name; a fill that counts is listed, and booked when it is on record and valid. */
  lemma ConcludedExactly(b: Books, s: Submission, audited: bool)
    requires ValidBook(b.ledger)
    ensures var (after, fill, stop) := Concluded(b, s, audited);
            && after.desk == b.desk
            && (stop.None? <==> s in {NothingToDo, SentLive} || (s.Sent? && s.result.Ok?))
            && (forall error :: stop == Some(RowStopped(error)) <==> s == RowRefused(error))
            && (forall reason :: stop == Some(RiskStopped(reason)) <==> s == RiskRefused(reason))
            && (forall error :: stop == Some(EngineStopped(error)) <==> s == Sent(Err(error)))
            && (forall f :: fill == Some(f) <==> s == Sent(Ok(f)) && Counts(f))
            && (fill.None? || !audited ==> after.ledger == b.ledger)
            && (fill.Some? && audited ==>
                  var booked := Applied(GetOr(b.ledger, fill.value.symbol, FLAT), fill.value.side, fill.value.quantity,
                                        fill.value.price);
                  after.ledger == if booked.Ok? then b.ledger[fill.value.symbol := booked.value] else b.ledger)
  {
    hide Applied, PnlOf;
  }

  /** Row `i` is selected under the symbol, and no later row is. */
  predicate LastOf(rows: seq<Row>, symbol: string, i: nat)
    requires i < |rows|
  {
    && rows[i].selected && Strip(rows[i].symbol) == symbol
    && forall j :: i < j < |rows| && rows[j].selected ==> Strip(rows[j].symbol) != symbol
  }

  /** Under each symbol the last selected row is found. */
  lemma {:induction false} LastIsFound(rows: seq<Row>, symbol: string)
    ensures symbol in BySymbol(rows) <==> exists i :: 0 <= i < |rows| && LastOf(rows, symbol, i)
    ensures forall i :: 0 <= i < |rows| && LastOf(rows, symbol, i) ==>
              symbol in BySymbol(rows) && BySymbol(rows)[symbol] == rows[i]
  {
    hide Strip;
    if rows != [] {
      var n := |rows| - 1;
      var before := rows[..n];
      LastIsFound(before, symbol);
      var replaced := rows[n].selected && Strip(rows[n].symbol) == symbol;
      assert replaced ==> LastOf(rows, symbol, n);
      forall i | 0 <= i < n
        ensures LastOf(rows, symbol, i) <==> LastOf(before, symbol, i) && !replaced
      {
        assert forall j :: 0 <= j < n ==> before[j] == rows[j];
      }
    }
  }
}
