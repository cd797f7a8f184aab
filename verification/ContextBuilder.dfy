/** Portfolio exposure rebuilt from account positions and prices (`portfolio_risk.py`). */
module ContextBuilder {
  import opened Base
  import opened Execution
  import opened Equity
  import opened Risk
  import opened Totals

  type Markets = map<string, string>

  const UNKNOWN := "UNKNOWN"

  function MarketOf(markets: Markets, symbol: string): (r: string) {
    var market := Strip(GetOr(markets, symbol, UNKNOWN));
    if market == "" then UNKNOWN else market
  }

  /** The concentration bucket of the target: empty unless a market is mapped explicitly. */
  function TargetMarket(markets: Markets, target: string): (r: string) {
    if target == "" then "" else Strip(GetOr(markets, target, ""))
  }

  ghost function WorthIn(positions: map<string, real>, prices: Prices, markets: Markets, market: string)
    : (r: map<string, real>)
  {
    map s | s in positions :: if MarketOf(markets, s) == market then LineValue(positions[s], s, prices) else 0.0
  }

  /** What is held in one market, at the given prices. */
  ghost function MarketNotional(positions: map<string, real>, prices: Prices, markets: Markets, market: string)
    : (r: real)
  {
    Total(WorthIn(positions, prices, markets, market))
  }

  /** No short positions, and everything held has a positive price. */
  predicate Priced(positions: map<string, real>, prices: Prices) {
    forall s :: s in positions ==> 0.0 <= positions[s] && (0.0 < positions[s] ==> s in prices && 0.0 < prices[s])
  }

  datatype Snapshot = Snapshot(context: RiskContext, cash: real, cashRatio: real, marketNotionals: map<string, real>)

  datatype BuildError = NegativeCash | NegativeQuantity | MissingPrice | NonPositivePrice | NonPositiveValue

  /** The context of an account, when there is one. */
  ghost function ContextOf(a: Account, prices: Prices, markets: Markets, target: string): (r: Option<RiskContext>) {
    if a.cash < 0.0 || !Priced(a.positions, prices) || EquityOf(a, prices) <= 0.0 then None
    else
      var market := TargetMarket(markets, target);
      Some(RiskContext(EquityOf(a, prices), MarketValue(a.positions, prices),
                       if market == "" then 0.0 else MarketNotional(a.positions, prices, markets, market), market))
  }

  lemma MarketAfterUpdate(
    positions: map<string, real>, prices: Prices, markets: Markets, symbol: string, delta: real, market: string)
    ensures MarketNotional(positions[symbol := GetOr(positions, symbol, 0.0) + delta], prices, markets, market) ==
            MarketNotional(positions, prices, markets, market)
            + (if MarketOf(markets, symbol) == market then LineValue(delta, symbol, prices) else 0.0)
  {
    var before := GetOr(positions, symbol, 0.0);
    LineSum(before, delta, symbol, prices);
    hide LineValue, MarketOf;
    var value := if MarketOf(markets, symbol) == market then LineValue(before + delta, symbol, prices) else 0.0;
    TotalUpdate(WorthIn(positions, prices, markets, market), symbol, value);
    assert WorthIn(positions[symbol := before + delta], prices, markets, market)
        == WorthIn(positions, prices, markets, market)[symbol := value];
  }

  /** The running sums after visiting the positions in `done`. */
  ghost predicate Tallied(
    done: map<string, real>, prices: Prices, markets: Markets, portfolioNotional: real,
    marketNotionals: map<string, real>)
  {
    && portfolioNotional == MarketValue(done, prices) == Total(marketNotionals)
    && forall m :: GetOr(marketNotionals, m, 0.0) == MarketNotional(done, prices, markets, m)
  }

  lemma NothingTallied(prices: Prices, markets: Markets)
    ensures Tallied(map[], prices, markets, 0.0, map[])
  {
    assert Worth(map[], prices) == map[];
    forall m
      ensures MarketNotional(map[], prices, markets, m) == 0.0
    {
      assert WorthIn(map[], prices, markets, m) == map[];
    }
  }

  lemma TallyMeans(
    done: map<string, real>, prices: Prices, markets: Markets, portfolioNotional: real,
    marketNotionals: map<string, real>)
    requires Tallied(done, prices, markets, portfolioNotional, marketNotionals)
    ensures portfolioNotional == MarketValue(done, prices) == Total(marketNotionals)
    ensures forall m :: GetOr(marketNotionals, m, 0.0) == MarketNotional(done, prices, markets, m)
  {
  }

  lemma TallySkip(
    done: map<string, real>, prices: Prices, markets: Markets, portfolioNotional: real,
    marketNotionals: map<string, real>, symbol: string)
    requires Tallied(done, prices, markets, portfolioNotional, marketNotionals) && symbol !in done
    ensures Tallied(done[symbol := 0.0], prices, markets, portfolioNotional, marketNotionals)
  {
    hide LineValue, MarketOf, MarketValue;
    ValueAfterUpdate(done, prices, symbol, 0.0);
    forall m
      ensures MarketNotional(done[symbol := 0.0], prices, markets, m) == MarketNotional(done, prices, markets, m)
    {
      MarketAfterUpdate(done, prices, markets, symbol, 0.0, m);
      LineSum(0.0, 0.0, symbol, prices);
    }
    LineSum(0.0, 0.0, symbol, prices);
    hide MarketNotional;
  }

  lemma TallyAdd(
    done: map<string, real>, prices: Prices, markets: Markets, portfolioNotional: real,
    marketNotionals: map<string, real>, symbol: string, quantity: real)
    requires Tallied(done, prices, markets, portfolioNotional, marketNotionals) && symbol !in done
    ensures var notional, market := LineValue(quantity, symbol, prices), MarketOf(markets, symbol);
            Tallied(done[symbol := quantity], prices, markets, portfolioNotional + notional,
                    marketNotionals[market := GetOr(marketNotionals, market, 0.0) + notional])
  {
    hide LineValue, MarketOf, MarketValue, MarketNotional;
    var notional, market := LineValue(quantity, symbol, prices), MarketOf(markets, symbol);
    ValueAfterUpdate(done, prices, symbol, quantity);
    TotalUpdate(marketNotionals, market, GetOr(marketNotionals, market, 0.0) + notional);
    forall m
      ensures MarketNotional(done[symbol := quantity], prices, markets, m)
              == MarketNotional(done, prices, markets, m) + (if market == m then notional else 0.0)
    {
      MarketAfterUpdate(done, prices, markets, symbol, quantity, m);
    }
    var tallied := marketNotionals[market := GetOr(marketNotionals, market, 0.0) + notional];
    assert portfolioNotional + notional == MarketValue(done[symbol := quantity], prices);
    assert portfolioNotional + notional == Total(tallied);
    assert forall m :: GetOr(tallied, m, 0.0)
                       == GetOr(marketNotionals, m, 0.0) + (if market == m then notional else 0.0);
    assert forall m :: GetOr(tallied, m, 0.0) == MarketNotional(done[symbol := quantity], prices, markets, m);
  }

  lemma NothingPriced(prices: Prices)
    ensures Priced(map[], prices)
  {
  }

  lemma PricedOneMore(positions: map<string, real>, prices: Prices, symbol: string, quantity: real)
    requires Priced(positions, prices) && 0.0 <= quantity
             && (0.0 < quantity ==> symbol in prices && 0.0 < prices[symbol])
    ensures Priced(positions[symbol := quantity], prices)
  {
  }

  lemma Unpriced(positions: map<string, real>, prices: Prices, symbol: string)
    requires symbol in positions
    requires positions[symbol] < 0.0 || (0.0 < positions[symbol] && (symbol !in prices || prices[symbol] <= 0.0))
    ensures !Priced(positions, prices)
  {
  }

  /** The builder's loop over the positions, in any order; it refuses what is short or unpriced. */
  method Tally(positions: map<string, real>, prices: Prices, markets: Markets)
    returns (portfolioNotional: real, marketNotionals: map<string, real>, refusal: Option<BuildError>)
    ensures refusal.None? <==> Priced(positions, prices)
    ensures refusal.None? ==> Tallied(positions, prices, markets, portfolioNotional, marketNotionals)
    ensures refusal.Some? ==> refusal.value in {NegativeQuantity, MissingPrice, NonPositivePrice}
  {
    hide LineValue, MarketOf, Tallied, Priced;
    portfolioNotional, marketNotionals, refusal := 0.0, map[], None;
    var todo := positions;
    ghost var done: map<string, real> := map[];
    NothingTallied(prices, markets);
    NothingPriced(prices);
    while todo != map[]
      invariant forall s :: s in todo ==> s !in done && s in positions && todo[s] == positions[s]
      invariant forall s :: s in done ==> s in positions && done[s] == positions[s]
      invariant forall s :: s in positions ==> s in todo || s in done
      invariant Priced(done, prices) && refusal.None?
      invariant Tallied(done, prices, markets, portfolioNotional, marketNotionals)
      decreases |todo|
    {
      var symbol :| symbol in todo;
      var quantity := todo[symbol];
      RemoveShrinks(todo, symbol);
      todo := todo - {symbol};
      if quantity < 0.0 {
        Unpriced(positions, prices, symbol);
        refusal := Some(NegativeQuantity);
        return;
      }
      if quantity == 0.0 {
        TallySkip(done, prices, markets, portfolioNotional, marketNotionals, symbol);
        PricedOneMore(done, prices, symbol, quantity);
        done := done[symbol := quantity];
        continue;
      }
      if symbol !in prices || prices[symbol] <= 0.0 {
        Unpriced(positions, prices, symbol);
        refusal := Some(if symbol !in prices then MissingPrice else NonPositivePrice);
        return;
      }
      var notional := LineValue(quantity, symbol, prices);
      var market := MarketOf(markets, symbol);
      TallyAdd(done, prices, markets, portfolioNotional, marketNotionals, symbol, quantity);
      PricedOneMore(done, prices, symbol, quantity);
      done := done[symbol := quantity];
      portfolioNotional := portfolioNotional + notional;
      marketNotionals := marketNotionals[market := GetOr(marketNotionals, market, 0.0) + notional];
    }
    assert done == positions;
  }

  /** The per-market notionals it reports always sum to the portfolio notional. */
  method Build(account: PaperAccount, prices: Prices, markets: Markets, target: string)
    returns (r: Result<Snapshot, BuildError>)
    ensures r.Ok? <==> ContextOf(account.Value(), prices, markets, target).Some?
    ensures r.Ok? ==>
              && r.value.context == ContextOf(account.Value(), prices, markets, target).value
              && r.value.cash == account.cash
              && r.value.cashRatio == account.cash / r.value.context.accountValue
              && (forall m :: GetOr(r.value.marketNotionals, m, 0.0)
                              == MarketNotional(account.positions, prices, markets, m))
              && Total(r.value.marketNotionals) == r.value.context.portfolioNotional
    ensures r == Err(NegativeCash) <==> account.cash < 0.0
    ensures r == Err(NonPositiveValue) <==>
            account.cash >= 0.0 && Priced(account.positions, prices) && EquityOf(account.Value(), prices) <= 0.0
  {
    if account.cash < 0.0 {
      return Err(NegativeCash);
    }
    hide Priced, Tallied, MarketValue, MarketNotional, Strip;
    var portfolioNotional, marketNotionals, refusal := Tally(account.positions, prices, markets);
    if refusal.Some? {
      return Err(refusal.value);
    }
    TallyMeans(account.positions, prices, markets, portfolioNotional, marketNotionals);
    var accountValue := account.cash + portfolioNotional;
    if accountValue <= 0.0 {
      return Err(NonPositiveValue);
    }
    var selected := if target != "" && target in markets then Strip(markets[target]) else "";
    var selectedNotional := if selected != "" then GetOr(marketNotionals, selected, 0.0) else 0.0;
    StripOfEmpty();
    r := Ok(Snapshot(RiskContext(accountValue, portfolioNotional, selectedNotional, selected),
                     account.cash, account.cash / accountValue, marketNotionals));
  }

  lemma StripOfEmpty()
    ensures Strip("") == ""
  {
  }
}
