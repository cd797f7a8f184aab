/** From the rows of a recommended portfolio through preflight to the end of the batch (`paper_execution.py`). */
module PreflightBatch {
  import opened Base
  import opened Money
  import opened Orders
  import opened Execution
  import opened Equity
  import opened Risk
  import opened ContextBuilder
  import opened TradeFacade
  import opened TradingPipeline
  import opened PaperBatch
  import opened BatchAgreement
  import opened BatchHeadroom
  import opened Exposure
  import opened Sizing

  // ----- What preflight passes on

  /** No two selected rows share a symbol, white space aside. */
  predicate DistinctRows(rows: seq<Row>) {
    forall i, j :: 0 <= i < j < |rows| && rows[i].selected && rows[j].selected ==>
      Strip(rows[i].symbol) != Strip(rows[j].symbol)
  }

  predicate Selects(rows: seq<Row>, symbol: string) {
    exists i :: 0 <= i < |rows| && rows[i].selected && Strip(rows[i].symbol) == symbol
  }

  ghost function PassedOf(s: Session, a: Account, rows: seq<Row>): (approved: seq<Revalidation>) {
    PassedRows(s.gate, a, rows, s.prices, s.markets, s.orderType, s.lot)
  }

  lemma MoreSelected(rows: seq<Row>, symbol: string)
    requires rows != [] && Selects(rows[..|rows| - 1], symbol)
    ensures Selects(rows, symbol)
    ensures DistinctRows(rows) && rows[|rows| - 1].selected ==> symbol != Strip(rows[|rows| - 1].symbol)
  {
    hide Strip;
    var i :| 0 <= i < |rows| - 1 && rows[..|rows| - 1][i].selected && Strip(rows[..|rows| - 1][i].symbol) == symbol;
    assert rows[i].selected && Strip(rows[i].symbol) == symbol;
  }

  lemma PassedLast(s: Session, a: Account, rows: seq<Row>)
    requires rows != []
    ensures var last, before, passed := rows[|rows| - 1], PassedOf(s, a, rows[..|rows| - 1]), PassedOf(s, a, rows);
            passed == before
            || (last.selected && exists r :: passed == before + [r] && r.intent.Some? && r.verdict == Approved
                                             && r.intent.value.symbol == Strip(last.symbol)
                                             && Revalidated(s.gate, a, last, s.prices, s.markets, s.orderType, s.lot)
                                                == Ok(r))
  {
    hide ContextOf, PortfolioApproval, TargetQuantity, Strip;
    var last := rows[|rows| - 1];
    var checked := Checked(s.gate, a, last, s.prices, s.markets, s.orderType, s.lot);
    if checked.Passed? {
      var r := checked.revalidation;
      assert PassedOf(s, a, rows) == PassedOf(s, a, rows[..|rows| - 1]) + [r];
    }
  }

  /**
   * What passes preflight is about selected rows, finds its row again and, for distinct rows, about distinct symbols.
   */
  lemma {:induction false} PassedRowsAreReady(s: Session, a: Account, rows: seq<Row>)
    requires DistinctRows(rows)
    ensures var approved := PassedOf(s, a, rows);
            && AllIntents(approved) && DistinctSymbols(approved)
            && (forall k :: 0 <= k < |approved| ==> Selects(rows, approved[k].intent.value.symbol))
            && (forall k :: 0 <= k < |approved| ==> ReadyRow(s, a, approved[k], BySymbol(rows)))
  {
    hide Revalidated, Strip, PassedOf, Selects;
    if rows == [] {
      NothingPasses(s, a);
    } else {
      var before, last := rows[..|rows| - 1], rows[|rows| - 1];
      var passed := PassedOf(s, a, before);
      PassedRowsAreReady(s, a, before);
      PassedLast(s, a, rows);
      forall k | 0 <= k < |passed|
        ensures ReadyRow(s, a, passed[k], BySymbol(rows)) && Selects(rows, passed[k].intent.value.symbol)
        ensures last.selected ==> passed[k].intent.value.symbol != Strip(last.symbol)
      {
        MoreSelected(rows, passed[k].intent.value.symbol);
        OtherRowsDoNotMatter(s, a, passed[k], BySymbol(before), BySymbol(rows));
      }
      if last.selected {
        assert Selects(rows, Strip(last.symbol)) by { LastIsSelected(rows); }
      }
      hide ReadyRow;
    }
  }

  lemma LastIsSelected(rows: seq<Row>)
    requires rows != [] && rows[|rows| - 1].selected
    ensures Selects(rows, Strip(rows[|rows| - 1].symbol))
  {
    hide Strip;
  }

  lemma OtherRowsDoNotMatter(s: Session, a: Account, r: Revalidation, one: map<string, Row>, other: map<string, Row>)
    requires ReadyRow(s, a, r, one) && r.intent.value.symbol in other
    requires one[r.intent.value.symbol] == other[r.intent.value.symbol]
    ensures ReadyRow(s, a, r, other)
  {
    hide Revalidated;
  }

  /**
   * Preflight and batch together: when no two selected rows share a symbol, the batch that preflight passes on fills
   * exactly the orders preflight approved if and only if every one of them still fits after those before it.
   */
  lemma RebalanceCompletesExactly(s: Session, b: Books, rows: seq<Row>, ids: seq<string>, audited: bool)
    requires FillsWhole(s) && DistinctRows(rows) && |rows| <= |ids|
    requires ValidBook(b.ledger) && ValidStore(b.desk.orders) && GoodIds(b.desk.orders, ids)
    ensures var approved, bySymbol := PassedOf(s, b.desk.account, rows), BySymbol(rows);
            && |approved| <= |ids| && AllIntents(approved) && Ready(s, b.desk.account, approved, bySymbol)
            && (FilledSoFar(Batch(s, b, approved, bySymbol, ids, audited), approved, |approved|)
                <==> AllFit(s, approved, bySymbol, |approved|))
  {
    hide Batch, FilledSoFar, AllFit, AccountAt, BySymbol, PassedRows, ReadyRow, DistinctRows, GoodIds, ValidStore,
      Selects;
    var approved := PassedOf(s, b.desk.account, rows);
    PassedRowsAreReady(s, b.desk.account, rows);
    PassedAtMostAll(s.gate, b.desk.account, rows, s.prices, s.markets, s.orderType, s.lot);
    BatchCompletesExactly(s, b, approved, BySymbol(rows), ids, audited);
  }

  // ----- A reserve that covers the costs

  predicate SizedWithRoom(s: Session, approved: seq<Revalidation>, bySymbol: map<string, Row>, n: nat)
    requires n <= |approved| && AllIntents(approved)
  {
    forall k :: 0 <= k < n ==> StaysSized(s, approved, bySymbol, k) && Room(s, approved, k)
  }

  lemma RoomPays(
    s: Session, start: Account, a: Account, approved: seq<Revalidation>, bySymbol: map<string, Row>, n: nat)
    requires Ready(s, start, approved, bySymbol) && AllIntents(approved) && n < |approved|
    requires AccountAt(s, start, a, approved, n) && Room(s, approved, n)
    requires 0.0 <= s.gate.limits.minCashReserve && ReserveCoversCosts(s.rates, s.gate.limits.minCashReserve)
    ensures Payable(s, approved, n)
  {
    hide Ready, ReadyRow, ContextOf, Approval, Moved, MovedIn, Lost, MarketValue, MarketNotional, Priced, Gross, Fee,
      Sized, EquityOf, Product, ReserveCoversCosts, CostFactor, PortfolioApproval, Held;
    ReadyAt(s, start, approved, bySymbol, n);
    var o, now, reserve := OrderOf(approved[n]), ContextAt(s, approved, n), s.gate.limits.minCashReserve;
    ReadyUnfolded(s, start, approved[n], bySymbol);
    CoveredNow(s, start, a, approved, bySymbol, n);
    ContextNow(s, start, a, approved, bySymbol, n);
    ContextMeans(a, s.prices, s.markets, o.symbol, now);
    ValueNonNegative(a.positions, s.prices);
    hide AccountAt;
    if o.side == Buy {
      ProductOne(o.quantity);
      AffordableNotional(s.rates, reserve, a.cash, now.accountValue, o.quantity, o.quantity, s.prices[o.symbol]);
      BuyCost(s.rates, o.quantity, s.prices[o.symbol]);
    }
  }

  /** With a reserve that covers slippage and fee, room for an order means that it can be paid for. */
  lemma {:induction false} ReserveSuffices(
    s: Session, b: Books, approved: seq<Revalidation>, bySymbol: map<string, Row>, ids: seq<string>, n: nat)
    requires Ready(s, b.desk.account, approved, bySymbol) && AllIntents(approved) && n <= |approved| <= |ids|
    requires ValidBook(b.ledger) && ValidStore(b.desk.orders) && GoodIds(b.desk.orders, ids)
    requires 0.0 <= s.gate.limits.minCashReserve && ReserveCoversCosts(s.rates, s.gate.limits.minCashReserve)
    ensures AllFit(s, approved, bySymbol, n) <==> SizedWithRoom(s, approved, bySymbol, n)
  {
    hide Ready, StaysSized, Room, Payable, AccountAt, ReserveCoversCosts, Batch, FilledSoFar, ValidStore, GoodIds;
    if n > 0 {
      ReserveSuffices(s, b, approved, bySymbol, ids, n - 1);
      if SizedWithRoom(s, approved, bySymbol, n) {
        FilledWhileFitting(s, b, approved, bySymbol, ids, true, n - 1);
        var a := Batch(s, b, approved[..n - 1], bySymbol, ids, true).books.desk.account;
        RoomPays(s, b.desk.account, a, approved, bySymbol, n - 1);
      }
      if AllFit(s, approved, bySymbol, n) {
        forall k | 0 <= k < n
          ensures StaysSized(s, approved, bySymbol, k) && Room(s, approved, k)
        {
          assert Fits(s, approved, bySymbol, k);
        }
      }
    }
  }

  // ----- Fills that cost nothing

  /** No order costs anything beyond the market value it moves. */
  predicate AllFree(s: Session, approved: seq<Revalidation>)
    requires AllIntents(approved)
  {
    forall k :: 0 <= k < |approved| ==> FrictionOf(s, approved[k]) == 0.0
  }

  predicate AllRoom(s: Session, approved: seq<Revalidation>, n: nat)
    requires n <= |approved| && AllIntents(approved)
  {
    forall k :: 0 <= k < n ==> Room(s, approved, k)
  }

  lemma {:induction false} NothingLost(s: Session, approved: seq<Revalidation>, n: nat)
    requires AllIntents(approved) && AllFree(s, approved) && n <= |approved|
    ensures Lost(s, approved, n) == 0.0
  {
    hide FrictionOf;
    if n > 0 {
      NothingLost(s, approved, n - 1);
    }
  }

  lemma FreeStaysSized(s: Session, start: Account, approved: seq<Revalidation>, bySymbol: map<string, Row>, k: nat)
    requires Ready(s, start, approved, bySymbol) && AllIntents(approved) && AllFree(s, approved) && k < |approved|
    ensures 0.0 < ValueAt(s, approved, k) && StaysSized(s, approved, bySymbol, k)
  {
    hide Ready, ContextOf, Revalidated, Lost, Product, PortfolioApproval, TargetQuantity, AllFree, Strip,
      DistinctSymbols;
    ReadyAt(s, start, approved, bySymbol, k);
    NothingLost(s, approved, k);
    ReadyUnfolded(s, start, approved[k], bySymbol);
    var o, ctx := OrderOf(approved[k]), approved[k].context;
    LargestLotMultiple(ctx.accountValue, bySymbol[o.symbol].targetWeight.value, s.prices[o.symbol], s.lot);
  }

  lemma FreePays(s: Session, approved: seq<Revalidation>, k: nat)
    requires AllIntents(approved) && AllFree(s, approved) && k < |approved| && Room(s, approved, k)
    requires 0.0 <= s.gate.limits.minCashReserve
    ensures Payable(s, approved, k)
  {
    assert FrictionOf(s, approved[k]) == 0.0;
    hide Gross, Fee, Tax, Moved, MovedIn, Lost, Product, AllFree, ValueAt, CashAt;
    RoomLeavesCash(CashAt(s, approved, k), Notional(OrderOf(approved[k]), PriceOf(s, OrderOf(approved[k]))),
                   ValueAt(s, approved, k), s.gate.limits.minCashReserve);
  }

  lemma RoomLeavesCash(cash: real, notional: real, value: real, reserve: real)
    requires 0.0 < value && 0.0 <= reserve
    ensures (cash - notional) / value > reserve ==> notional < cash
  {
    var share := (cash - notional) / value;
    assert share * value == cash - notional;
    if share > reserve {
      MulStrict(0.0, share, value);
    }
  }

  /**
   * When no fill costs anything, the batch runs to its end, with every order filled whole, if and only if the limits
   * leave room for each of them after those before it; and if not, the risk gate stops it.
   */
  lemma FreeBatchStops(
    s: Session, b: Books, approved: seq<Revalidation>, bySymbol: map<string, Row>, ids: seq<string>, audited: bool)
    requires Ready(s, b.desk.account, approved, bySymbol) && |approved| <= |ids|
    requires ValidBook(b.ledger) && ValidStore(b.desk.orders) && GoodIds(b.desk.orders, ids)
    requires AllIntents(approved) && AllFree(s, approved) && 0.0 <= s.gate.limits.minCashReserve
    ensures var end := Batch(s, b, approved, bySymbol, ids, audited);
            && (end.stop.None? <==> AllRoom(s, approved, |approved|))
            && (end.stop.None? <==> FilledSoFar(end, approved, |approved|))
            && (end.stop.Some? ==> end.stop.value.RiskStopped?)
  {
    hide Ready, Room, StaysSized, Payable, AccountAt, ValidStore, GoodIds, Batch, AllFree, ValueAt;
    forall k | 0 <= k < |approved|
      ensures 0.0 < ValueAt(s, approved, k) && StaysSized(s, approved, bySymbol, k)
      ensures Fits(s, approved, bySymbol, k) <==> Room(s, approved, k)
    {
      FreeStaysSized(s, b.desk.account, approved, bySymbol, k);
      if Room(s, approved, k) {
        FreePays(s, approved, k);
      }
    }
    BatchCompletesExactly(s, b, approved, bySymbol, ids, audited);
    if !AllFit(s, approved, bySymbol, |approved|) {
      var k := FirstUnfit(s, approved, bySymbol, |approved|);
      FirstObstacle(s, b, approved, bySymbol, ids, audited, k);
      BatchStops(s, b, approved, bySymbol, ids, audited, k + 1);
    } else {
      forall k | 0 <= k < |approved|
        ensures Room(s, approved, k)
      {
        assert Fits(s, approved, bySymbol, k);
      }
    }
  }

  // ----- Two rows that pass together

  const TWO_PRICES: Prices := map["A" := 1.0, "B" := 1.0]
  const TWO_IDS := ["first", "second"]

  function RowOf(symbol: string, weight: real): (row: Row) {
    Row(symbol, Some(weight), true)
  }

  function TwoRows(weight: real): (rows: seq<Row>) {
    [RowOf("A", weight), RowOf("B", weight)]
  }

  function SessionAt(rates: Rates): (s: Session) {
    Session(rates, HALF_LIMIT, PaperSandbox, TWO_PRICES, map[], Market, 1.0)
  }

  /** A BUY of `quantity`, sized from 100 in cash. */
  function Share(symbol: string, quantity: real): (r: Revalidation) {
    Revalidation(RiskContext(100.0, 0.0, 0.0, ""), Some(Intent(symbol, Buy, quantity, Market, None)), Approved)
  }

  function TwoShares(quantity: real): (approved: seq<Revalidation>) {
    [Share("A", quantity), Share("B", quantity)]
  }

  /** Any one symbol may be bought for the weight's part of 100 in cash. */
  lemma ShareApproved(symbol: string, weight: real, quantity: real)
    requires symbol in TWO_PRICES && Strip(symbol) == symbol && symbol != ""
    requires 0.0 <= weight <= 1.0 && 0.0 < quantity <= 50.0 && TargetQuantity(100.0, weight, 1.0, 1.0) == quantity
    ensures Revalidated(HALF_LIMIT, HUNDRED, RowOf(symbol, weight), TWO_PRICES, map[], Market, 1.0)
            == Ok(Share(symbol, quantity))
  {
    var ctx := RiskContext(100.0, 0.0, 0.0, "");
    assert ContextOf(HUNDRED, TWO_PRICES, map[], symbol) == Some(ctx) by {
      assert Worth(map[], TWO_PRICES) == map[];
      StripOfEmpty();
    }
    ProductOne(quantity);
    hide ContextOf, Strip, Product, TargetQuantity;
  }

  lemma StrippedNames()
    ensures Strip("A") == "A" && Strip("B") == "B"
  {
    assert DropLeadingSpace("A") == "A" && DropTrailingSpace("A") == "A";
    assert DropLeadingSpace("B") == "B" && DropTrailingSpace("B") == "B";
  }

  /** Preflight of one more row that passes. */
  lemma OneMorePasses(s: Session, a: Account, rows: seq<Row>, row: Row, r: Revalidation)
    requires row.selected && r.intent.Some? && r.verdict == Approved
    requires Revalidated(s.gate, a, row, s.prices, s.markets, s.orderType, s.lot) == Ok(r)
    ensures PassedOf(s, a, rows + [row]) == PassedOf(s, a, rows) + [r]
    ensures FailedRows(s.gate, a, rows + [row], s.prices, s.markets, s.orderType, s.lot)
            == FailedRows(s.gate, a, rows, s.prices, s.markets, s.orderType, s.lot)
    ensures BySymbol(rows + [row]) == BySymbol(rows)[Strip(row.symbol) := row]
  {
    hide Revalidated, Strip;
    assert (rows + [row])[..|rows|] == rows;
  }

  lemma TwoPass(rates: Rates, weight: real, quantity: real)
    requires 0.0 <= weight <= 1.0 && 0.0 < quantity <= 50.0 && TargetQuantity(100.0, weight, 1.0, 1.0) == quantity
    ensures PassedOf(SessionAt(rates), HUNDRED, TwoRows(weight)) == TwoShares(quantity)
    ensures FailedRows(HALF_LIMIT, HUNDRED, TwoRows(weight), TWO_PRICES, map[], Market, 1.0) == []
    ensures DistinctRows(TwoRows(weight))
    ensures BySymbol(TwoRows(weight)) == map["A" := RowOf("A", weight), "B" := RowOf("B", weight)]
  {
    hide Revalidated, Strip, PassedOf, FailedRows, BySymbol, TargetQuantity;
    StrippedNames();
    NothingPasses(SessionAt(rates), HUNDRED);
    ShareApproved("A", weight, quantity);
    ShareApproved("B", weight, quantity);
    OneMorePasses(SessionAt(rates), HUNDRED, [], RowOf("A", weight), Share("A", quantity));
    OneMorePasses(SessionAt(rates), HUNDRED, [RowOf("A", weight)], RowOf("B", weight), Share("B", quantity));
    assert [] + [RowOf("A", weight)] == [RowOf("A", weight)];
    assert [RowOf("A", weight)] + [RowOf("B", weight)] == TwoRows(weight);
  }

  lemma NothingPasses(s: Session, a: Account)
    ensures PassedOf(s, a, []) == [] && BySymbol([]) == map[]
    ensures FailedRows(s.gate, a, [], s.prices, s.markets, s.orderType, s.lot) == []
  {
  }

  /**
   * Two halves, bought for nothing beyond their price: preflight approves both, and the gate stops the batch at the
   * second.
   */
  lemma PreflightIsNotEnough(audited: bool)
    ensures var s, rows := SessionAt(FREE), TwoRows(0.5);
            var approved := PassedOf(s, HUNDRED, rows);
            && |approved| == 2 && FailedRows(HALF_LIMIT, HUNDRED, rows, TWO_PRICES, map[], Market, 1.0) == []
            && AllIntents(approved) && AllFree(s, approved)
            && var end := Batch(s, NO_HOLDINGS, approved, BySymbol(rows), TWO_IDS, audited);
               end.stop.Some? && end.stop.value.RiskStopped?
  {
    hide Batch, BySymbol, PassedOf, FailedRows, Room, DistinctRows, FilledSoFar;
    var s := SessionAt(FREE);
    assert TargetQuantity(100.0, 0.5, 1.0, 1.0) == 50.0;
    TwoPass(FREE, 0.5, 50.0);
    RebalanceCompletesExactly(s, NO_HOLDINGS, TwoRows(0.5), TWO_IDS, audited);
    HalvesAreFree();
    NoRoomForSecondHalf();
    FreeBatchStops(s, NO_HOLDINGS, TwoShares(50.0), BySymbol(TwoRows(0.5)), TWO_IDS, audited);
  }

  lemma HalvesAreFree()
    ensures AllIntents(TwoShares(50.0)) && AllFree(SessionAt(FREE), TwoShares(50.0))
  {
    HalfFill();
    FrictionlessCostsNothing(FREE, Buy, 50.0, 1.0);
    hide Friction, FilledWhole, Frictionless;
  }

  lemma NoRoomForSecondHalf()
    ensures AllIntents(TwoShares(50.0)) && !Room(SessionAt(FREE), TwoShares(50.0), 1)
  {
    HalvesAreFree();
    NothingLost(SessionAt(FREE), TwoShares(50.0), 1);
    ProductOne(50.0);
    assert Moved(SessionAt(FREE), TwoShares(50.0), 0) == 0.0;
    hide Product, Lost, AllFree;
  }

  /** The rates an engine has by default. */
  const DEFAULT_RATES := Rates(0.00015, 0.002, 5.0, 1.0)

  lemma FirstFortyCosts()
    ensures AllIntents(TwoShares(40.0)) && Lost(SessionAt(DEFAULT_RATES), TwoShares(40.0), 1) == 0.02
  {
    var s, approved := SessionAt(DEFAULT_RATES), TwoShares(40.0);
    assert Gross(DEFAULT_RATES, Buy, 40.0, 1.0) == 40.02;
    assert Fee(DEFAULT_RATES, Buy, 40.0, 1.0) == 0.0;
    assert Product(40.0, 1.0) == 40.0;
    assert Friction(DEFAULT_RATES, Buy, 40.0, 1.0) == 0.02;
    hide Friction;
    assert Lost(s, approved, 0) == 0.0;
  }

  /**
   * Two rows of weight 0.4 at the default rates: preflight approves 40 of each. The first fill costs two cents, so that
   * the second row is sized anew to 39, and the batch never fills what was approved.
   */
  lemma DefaultRatesResize(audited: bool)
    ensures var s, rows := SessionAt(DEFAULT_RATES), TwoRows(0.4);
            var approved := PassedOf(s, HUNDRED, rows);
            && |approved| == 2 && FailedRows(HALF_LIMIT, HUNDRED, rows, TWO_PRICES, map[], Market, 1.0) == []
            && AllIntents(approved) && ValueAt(s, approved, 1) == 99.98 && TargetQuantity(99.98, 0.4, 1.0, 1.0) == 39.0
            && !FilledSoFar(Batch(s, NO_HOLDINGS, approved, BySymbol(rows), TWO_IDS, audited), approved, 2)
  {
    hide Batch, PassedOf, FailedRows, Room, DistinctRows, FilledSoFar, Payable, BySymbol;
    var s := SessionAt(DEFAULT_RATES);
    assert TargetQuantity(100.0, 0.4, 1.0, 1.0) == 40.0 && TargetQuantity(99.98, 0.4, 1.0, 1.0) == 39.0;
    TwoPass(DEFAULT_RATES, 0.4, 40.0);
    RebalanceCompletesExactly(s, NO_HOLDINGS, TwoRows(0.4), TWO_IDS, audited);
    FirstFortyCosts();
    assert Product(99.98, 0.4) < Product(40.0, 1.0);
    hide Lost, TargetQuantity, Product;
    assert !StaysSized(s, TwoShares(40.0), BySymbol(TwoRows(0.4)), 1);
    assert !Fits(s, TwoShares(40.0), BySymbol(TwoRows(0.4)), 1);
  }
}
