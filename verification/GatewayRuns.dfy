/** What holds of every run of gateway calls, including calls that raise. */
module GatewayRuns {
  import opened Base
  import opened Money
  import opened Orders
  import opened Execution
  import opened Totals

  datatype Event = Call(mode: Mode, order: Order, price: real, available: Option<real>)
                 | Cancel(id: string)

  datatype Reply = Replied(fill: Fill) | Acknowledged(record: OrderRecord) | Raised(error: Error)

  function Next(c: Rates, d: Desk, e: Event): (r: Desk) {
    match e
    case Call(mode, order, price, available) => Executed(c, mode, d, order, price, available).0
    case Cancel(id) => d.(orders := AfterCancel(d.orders, id).0)
  }

  function Answer(c: Rates, d: Desk, e: Event): (r: Reply) {
    match e
    case Call(mode, order, price, available) =>
      (match Executed(c, mode, d, order, price, available).1
       case Ok(fill) => Replied(fill)
       case Err(error) => Raised(error))
    case Cancel(id) =>
      (match AfterCancel(d.orders, id).1
       case Ok(record) => Acknowledged(record)
       case Err(error) => Raised(StoreRefused(error)))
  }

  function Run(c: Rates, d: Desk, es: seq<Event>): (r: Desk)
    decreases |es|
  {
    if es == [] then d else Run(c, Next(c, d, es[0]), es[1..])
  }

  // ----- The shape of one step

  function FilledOf(orders: Store, id: string): (r: real) {
    if id in orders then orders[id].filled else 0.0
  }

  function TradedQuantity(c: Rates, d: Desk, e: Event): (r: real) {
    if e.Call? then FilledOf(Next(c, d, e).orders, e.order.clientOrderId) - FilledOf(d.orders, e.order.clientOrderId)
    else 0.0
  }

  /** The call reached the engine and bought or sold something. */
  predicate Trades(c: Rates, d: Desk, e: Event) {
    TradedQuantity(c, d, e) != 0.0
  }

  predicate SameLabels(r: OrderRecord, s: OrderRecord) {
    r.symbol == s.symbol && r.side == s.side && r.quantity == s.quantity
  }

  function EventId(e: Event): (r: string) {
    if e.Call? then e.order.clientOrderId else e.id
  }

  /** The order store moved from `before` to `after` by filling `quantity` of order `id` and nothing else. */
  predicate OnlyFilled(before: Store, after: Store, id: string, quantity: real) {
    && before.Keys <= after.Keys <= before.Keys + {id}
    && (forall k :: k in before ==> SameLabels(before[k], after[k]))
    && (forall k :: k in after ==> after[k].filled == FilledOf(before, k) + (if k == id then quantity else 0.0))
  }

  /** Account and store moved by the same quantity `q` of the order, at a price the engine accepts. */
  predicate Settles(c: Rates, d: Desk, o: Order, price: real, q: real, after: Desk) {
    && 0.0 < q && 0.0 < price && 0.0 <= c.slippageBps && 0.0 < c.maxFillRatio <= 1.0
    && Covered(c, d.account, o.symbol, o.side, q, price)
    && after.account == Traded(c, d.account, o.symbol, o.side, q, price)
    && o.clientOrderId in after.orders
    && var r := after.orders[o.clientOrderId]; r.symbol == o.symbol && r.side == o.side
  }

  /** The gateway admits an order to the engine only for what its record still lacks. */
  lemma AdmitShape(mode: Mode, d: Desk, o: Order, price: real)
    requires ValidStore(d.orders) && Admit(mode, d, o, price).Admitted?
    ensures var Admitted(desk, effective) := Admit(mode, d, o, price);
            && ValidStore(desk.orders) && desk.account == d.account
            && OnlyFilled(d.orders, desk.orders, o.clientOrderId, 0.0)
            && effective == o.(quantity := effective.quantity)
            && OpenFor(desk, effective)
  {
  }

  predicate OpenFor(d: Desk, o: Order) {
    && o.clientOrderId in d.orders
    && var r := d.orders[o.clientOrderId];
       r.symbol == o.symbol && r.side == o.side && r.filled + o.quantity == r.quantity && !Terminal(r.status)
  }

  lemma FilledInTwoSteps(first: Store, second: Store, third: Store, id: string, quantity: real)
    requires OnlyFilled(first, second, id, 0.0) && OnlyFilled(second, third, id, quantity)
    ensures OnlyFilled(first, third, id, quantity)
    ensures id in third ==> FilledOf(third, id) - FilledOf(first, id) == quantity
  {
  }

  /**
   * A step either trades, and then account and store move by the same quantity of the ordered symbol,
   * or it leaves the account and every filled quantity alone, whether it answers or raises.
   */
  lemma StepShape(c: Rates, d: Desk, e: Event)
    requires ValidStore(d.orders)
    ensures var q, next := TradedQuantity(c, d, e), Next(c, d, e);
            && ValidStore(next.orders)
            && OnlyFilled(d.orders, next.orders, EventId(e), q)
            && (Trades(c, d, e) ==> Settles(c, d, e.order, e.price, q, next))
            && (!Trades(c, d, e) ==> next.account == d.account)
  {
    if e.Call? {
      CallShape(c, d, e);
    }
  }

  lemma CallShape(c: Rates, d: Desk, e: Event)
    requires ValidStore(d.orders) && e.Call?
    ensures var q, next := TradedQuantity(c, d, e), Next(c, d, e);
            && ValidStore(next.orders)
            && OnlyFilled(d.orders, next.orders, EventId(e), q)
            && (Trades(c, d, e) ==> Settles(c, d, e.order, e.price, q, next))
            && (!Trades(c, d, e) ==> next.account == d.account)
  {
    hide Delivered, Admit, ValidStore, OnlyFilled, Settles;
    var admission := Admit(e.mode, d, e.order, e.price);
    NothingFilled(d.orders, e.order.clientOrderId);
    if admission.Admitted? {
      AdmitShape(e.mode, d, e.order, e.price);
      var Admitted(desk, effective) := admission;
      Delivery(c, desk, effective, e.price, e.available);
      var id := e.order.clientOrderId;
      var after := Delivered(c, desk, effective, e.price, e.available).0;
      var q := FilledOf(after.orders, id) - FilledOf(desk.orders, id);
      FilledInTwoSteps(d.orders, desk.orders, after.orders, id, q);
      SameFilled(d.orders, desk.orders, id);
      SettlesAlike(c, d, desk, e.order, effective, e.price, q, after);
    }
  }

  lemma NothingFilled(orders: Store, id: string)
    ensures OnlyFilled(orders, orders, id, 0.0)
  {
  }

  lemma SameFilled(before: Store, after: Store, id: string)
    requires OnlyFilled(before, after, id, 0.0)
    ensures FilledOf(after, id) == FilledOf(before, id)
  {
  }

  /** Only the account, symbol, side and id of what settles matter. */
  lemma SettlesAlike(c: Rates, d: Desk, desk: Desk, o: Order, effective: Order, price: real, q: real, after: Desk)
    requires desk.account == d.account && effective == o.(quantity := effective.quantity)
    ensures Settles(c, desk, effective, price, q, after) <==> Settles(c, d, o, price, q, after)
  {
    hide Traded, Covered;
  }

  /** The engine never fills more than it is asked for. */
  lemma FillQuantityBounded(c: Rates, quantity: real, available: Option<real>)
    requires 0.0 < quantity && 0.0 < c.maxFillRatio <= 1.0
    ensures FillQuantity(c, quantity, available) <= quantity
    ensures available.None? ==> 0.0 < FillQuantity(c, quantity, available)
  {
    hide FillQuantity, Product;
    FillQuantityLimits(c, quantity, available);
    ProductBetween(c.maxFillRatio, quantity, c.maxFillRatio, 1.0);
    ProductStrict(0.0, c.maxFillRatio, quantity);
    ProductOne(quantity);
    ProductZero(quantity);
  }

  lemma FillQuantityLimits(c: Rates, quantity: real, available: Option<real>)
    ensures FillQuantity(c, quantity, available) <= Product(c.maxFillRatio, quantity)
    ensures available.None? ==> FillQuantity(c, quantity, available) == Product(c.maxFillRatio, quantity)
  {
  }

  /**
   * Delivering an order whose quantity is what its record still lacks: the store's fill guard never
   * fires after the account has moved, so a raising delivery changes nothing; a trade is answered with
   * the status the store now has; and an order for which nothing is available is cancelled.
   */
  lemma Delivery(c: Rates, d: Desk, o: Order, price: real, available: Option<real>)
    requires ValidStore(d.orders) && OpenFor(d, o)
    ensures var (after, r) := Delivered(c, d, o, price, available);
            var q := FilledOf(after.orders, o.clientOrderId) - FilledOf(d.orders, o.clientOrderId);
            && ValidStore(after.orders)
            && OnlyFilled(d.orders, after.orders, o.clientOrderId, q)
            && (r.Err? ==> after == d && !r.error.StoreRefused?)
            && (r.Ok? ==> Refusal(c, o, price).None?)
            && (r.Ok? && q != 0.0 ==>
                  && Settles(c, d, o, price, q, after)
                  && q == FillQuantity(c, o.quantity, available)
                  && r.value.status == after.orders[o.clientOrderId].status
                  && r.value.status in {Filled, PartiallyFilled})
            && (r.Ok? && q == 0.0 ==>
                  && FillQuantity(c, o.quantity, available) <= 0.0
                  && after.account == d.account
                  && r.value.status == Rejected && after.orders[o.clientOrderId].status == Canceled)
  {
    hide Traded, Covered, FillPrice, Fee, Tax, FillQuantity;
    if Refusal(c, o, price).None? {
      FillQuantityBounded(c, o.quantity, available);
    }
  }

  // ----- Conservation between account and order store

  function Signed(r: OrderRecord, symbol: string): (result: real) {
    if r.symbol != symbol then 0.0 else if r.side == Buy then r.filled else -r.filled
  }

  ghost function SignedFills(orders: Store, symbol: string): (r: map<string, real>) {
    map id | id in orders :: Signed(orders[id], symbol)
  }

  /** Filled BUY quantity minus filled SELL quantity of a symbol over the whole order store. */
  ghost function NetFilled(orders: Store, symbol: string): (r: real) {
    Total(SignedFills(orders, symbol))
  }

  lemma NetAfterFilling(before: Store, after: Store, id: string, quantity: real, symbol: string)
    requires OnlyFilled(before, after, id, quantity)
    requires id !in after ==> quantity == 0.0
    ensures NetFilled(after, symbol) ==
            NetFilled(before, symbol)
            + (if id !in after || after[id].symbol != symbol then 0.0
               else if after[id].side == Buy then quantity else -quantity)
  {
    var m := SignedFills(before, symbol);
    if id in after {
      assert SignedFills(after, symbol) == m[id := Signed(after[id], symbol)];
      TotalUpdate(m, id, Signed(after[id], symbol));
    } else {
      assert SignedFills(after, symbol) == m;
    }
  }

  /**
   * Over any run, each position moves by exactly what the order store says was bought less what it says
   * was sold, and no order is overfilled.
   */
  lemma {:induction false} AccountAgreesWithOrders(c: Rates, d: Desk, es: seq<Event>, symbol: string)
    requires ValidStore(d.orders)
    ensures var end := Run(c, d, es);
            && ValidStore(end.orders)
            && Held(end.account, symbol) - Held(d.account, symbol)
               == NetFilled(end.orders, symbol) - NetFilled(d.orders, symbol)
    decreases |es|
  {
    if es != [] {
      var next := Next(c, d, es[0]);
      StepShape(c, d, es[0]);
      NetAfterFilling(d.orders, next.orders, EventId(es[0]), TradedQuantity(c, d, es[0]), symbol);
      AccountAgreesWithOrders(c, next, es[1..], symbol);
    }
  }

  /** A call that raises leaves the account and every filled quantity as they were. */
  lemma RaisingChangesNothing(c: Rates, d: Desk, e: Event)
    requires ValidStore(d.orders) && Answer(c, d, e).Raised?
    ensures Next(c, d, e).account == d.account
    ensures forall id :: FilledOf(Next(c, d, e).orders, id) == FilledOf(d.orders, id)
    ensures Answer(c, d, e).error.StoreRefused? ==> e == Cancel(EventId(e)) && EventId(e) !in d.orders
  {
    hide Delivered, Traded, Covered, Admit, Settles, OnlyFilled, ValidStore;
    StepShape(c, d, e);
    RaisedIsNoTrade(c, d, e);
    NoTradeNoFill(d.orders, Next(c, d, e).orders, EventId(e));
  }

  lemma NoTradeNoFill(before: Store, after: Store, id: string)
    requires OnlyFilled(before, after, id, 0.0)
    ensures forall k :: FilledOf(after, k) == FilledOf(before, k)
  {
  }

  lemma RaisedIsNoTrade(c: Rates, d: Desk, e: Event)
    requires ValidStore(d.orders) && Answer(c, d, e).Raised?
    ensures TradedQuantity(c, d, e) == 0.0
    ensures Answer(c, d, e).error.StoreRefused? ==> e == Cancel(EventId(e)) && EventId(e) !in d.orders
  {
    if e.Call? {
      hide Delivered, Traded, Covered, Admit, Settles;
      var admission := Admit(e.mode, d, e.order, e.price);
      if admission.Admitted? {
        AdmitShape(e.mode, d, e.order, e.price);
        Delivery(c, admission.desk, admission.effective, e.price, e.available);
      } else if admission.Refused? {
        RefusedByGateway(e.mode, d, e.order, e.price);
      }
    }
  }

  lemma RefusedByGateway(mode: Mode, d: Desk, o: Order, price: real)
    requires Admit(mode, d, o, price).Refused?
    ensures !Admit(mode, d, o, price).error.StoreRefused?
  {
  }

  // ----- Finished orders

  /** A call about an order that is FILLED, CANCELED or REJECTED changes nothing at all. */
  lemma FinishedOrderIgnoresCalls(c: Rates, d: Desk, e: Event)
    requires EventId(e) in d.orders && Terminal(d.orders[EventId(e)].status)
    ensures Next(c, d, e) == d
  {
  }

  /** Through the gateway, a finished order keeps its record over every run. */
  lemma {:induction false} TerminalOrderIsFrozen(c: Rates, d: Desk, es: seq<Event>, id: string)
    requires ValidStore(d.orders) && id in d.orders && Terminal(d.orders[id].status)
    ensures id in Run(c, d, es).orders && Run(c, d, es).orders[id] == d.orders[id]
    decreases |es|
  {
    if es != [] {
      if EventId(es[0]) == id {
        FinishedOrderIgnoresCalls(c, d, es[0]);
      } else {
        OtherOrderUntouched(c, d, es[0], id);
      }
      StepShape(c, d, es[0]);
      TerminalOrderIsFrozen(c, Next(c, d, es[0]), es[1..], id);
    }
  }

  lemma OtherOrderUntouched(c: Rates, d: Desk, e: Event, id: string)
    requires EventId(e) != id
    ensures id in Next(c, d, e).orders <==> id in d.orders
    ensures id in d.orders ==> Next(c, d, e).orders[id] == d.orders[id]
  {
    hide Traded, Covered;
  }

  // ----- Partial fills

  /** Number of calls for order `id` that the gateway answers instead of raising. */
  function Successes(c: Rates, d: Desk, es: seq<Event>, id: string): (r: nat)
    decreases |es|
  {
    if es == [] then 0
    else (if es[0].Call? && EventId(es[0]) == id && Answer(c, d, es[0]).Replied? then 1 else 0)
         + Successes(c, Next(c, d, es[0]), es[1..], id)
  }

  /** Order `id` is never cancelled and never limited by an available quantity. */
  predicate Unconstrained(es: seq<Event>, id: string) {
    forall i :: 0 <= i < |es| && EventId(es[i]) == id ==> es[i].Call? && es[i].available.None?
  }

  function Unfilled(r: OrderRecord): (result: real) {
    r.quantity - r.filled
  }

  /** quantity * (1 - ratio)^n */
  function Geometric(quantity: real, ratio: real, n: nat): (r: real) {
    quantity * Power(1.0 - ratio, n)
  }

  lemma GeometricStep(quantity: real, ratio: real, n: nat, unfilled: real)
    requires unfilled == Geometric(quantity, ratio, n)
    ensures Geometric(quantity, ratio, n + 1) == unfilled - unfilled * ratio
  {
    PowerSuccessor(1.0 - ratio, n);
    ProductOrder(quantity, Power(1.0 - ratio, n), 1.0 - ratio);
    Distribute(quantity * Power(1.0 - ratio, n), ratio);
  }

  lemma GeometricStart(quantity: real, ratio: real)
    ensures Geometric(quantity, ratio, 0) == quantity
  {
  }

  lemma Distribute(x: real, ratio: real)
    ensures x * (1.0 - ratio) == x - x * ratio
  {
  }

  /** Order `id` is either not known yet, or short of exactly quantity * (1 - ratio)^n. */
  predicate ShortBy(c: Rates, orders: Store, id: string, n: nat) {
    if id !in orders then n == 0
    else
      && 0.0 < orders[id].quantity
      && Unfilled(orders[id]) == Geometric(orders[id].quantity, c.maxFillRatio, n)
      && orders[id].status != Canceled && orders[id].status != Rejected
  }

  /** Every call for order `id` asks for a positive quantity. */
  predicate PositiveFor(es: seq<Event>, id: string) {
    forall i :: 0 <= i < |es| && es[i].Call? && EventId(es[i]) == id ==> es[i].order.quantity > 0.0
  }

  lemma ShortOneMore(c: Rates, d: Desk, e: Event, n: nat)
    requires ValidStore(d.orders) && ShortBy(c, d.orders, EventId(e), n)
    requires e.Call? && e.available.None? && e.order.quantity > 0.0
    ensures ShortBy(c, Next(c, d, e).orders, EventId(e), if Answer(c, d, e).Replied? then n + 1 else n)
  {
    hide Delivered, Traded, Covered, ShortBy;
    var admission := Admit(e.mode, d, e.order, e.price);
    if admission.Settled? {
      SettledIsFull(c, d, e, n);
    } else if admission.Admitted? {
      AdmittedShrinks(c, d, e, n);
      AdmittedQuantity(c, d, e, n);
    }
  }

  /** An echoed order has nothing left to fill. */
  lemma SettledIsFull(c: Rates, d: Desk, e: Event, n: nat)
    requires ValidStore(d.orders) && ShortBy(c, d.orders, EventId(e), n)
    requires e.Call? && e.order.quantity > 0.0 && Admit(e.mode, d, e.order, e.price).Settled?
    ensures ShortBy(c, d.orders, EventId(e), n + 1)
  {
    hide Geometric;
    GeometricStep(e.order.quantity, c.maxFillRatio, n, 0.0);
  }

  lemma AdmittedShrinks(c: Rates, d: Desk, e: Event, n: nat)
    requires ValidStore(d.orders) && ShortBy(c, d.orders, EventId(e), n)
    requires e.Call? && e.available.None? && e.order.quantity > 0.0 && Admit(e.mode, d, e.order, e.price).Admitted?
    ensures var Admitted(desk, effective) := Admit(e.mode, d, e.order, e.price);
            var (after, r) := Delivered(c, desk, effective, e.price, None);
            && (r.Ok? ==> ShortBy(c, after.orders, EventId(e), n + 1))
            && (r.Err? ==> after == desk)
  {
    hide Delivered, Traded, Covered, Geometric;
    AdmitShape(e.mode, d, e.order, e.price);
    AdmittedQuantity(c, d, e, n);
    var Admitted(desk, effective) := Admit(e.mode, d, e.order, e.price);
    DeliveredShrinks(c, desk, effective, e.price, n);
  }

  lemma DeliveredShrinks(c: Rates, d: Desk, o: Order, price: real, n: nat)
    requires ValidStore(d.orders) && OpenFor(d, o) && ShortBy(c, d.orders, o.clientOrderId, n)
    ensures var (after, r) := Delivered(c, d, o, price, None);
            && (r.Ok? ==> ShortBy(c, after.orders, o.clientOrderId, n + 1))
            && (r.Err? ==> after == d)
  {
    hide Delivered, Traded, Covered, Geometric, ValidStore;
    GeometricStep(d.orders[o.clientOrderId].quantity, c.maxFillRatio, n, o.quantity);
    DeliveryLeaves(c, d, o, price);
  }

  lemma AdmittedQuantity(c: Rates, d: Desk, e: Event, n: nat)
    requires ValidStore(d.orders) && ShortBy(c, d.orders, EventId(e), n)
    requires e.Call? && e.order.quantity > 0.0 && Admit(e.mode, d, e.order, e.price).Admitted?
    ensures var Admitted(desk, effective) := Admit(e.mode, d, e.order, e.price);
            && effective.quantity == Geometric(e.order.quantity, c.maxFillRatio, n)
            && EventId(e) in desk.orders && desk.orders[EventId(e)].quantity == e.order.quantity
            && ShortBy(c, desk.orders, EventId(e), n)
  {
    hide Geometric;
    GeometricStart(e.order.quantity, c.maxFillRatio);
  }

  /** With no quantity limit, a delivery that does not raise leaves the fraction 1 - ratio of the order unfilled. */
  lemma DeliveryLeaves(c: Rates, d: Desk, o: Order, price: real)
    requires ValidStore(d.orders) && OpenFor(d, o)
    ensures var (after, r) := Delivered(c, d, o, price, None);
            r.Ok? ==>
              && o.clientOrderId in after.orders
              && SameLabels(after.orders[o.clientOrderId], d.orders[o.clientOrderId])
              && Unfilled(after.orders[o.clientOrderId]) == o.quantity - o.quantity * c.maxFillRatio
              && after.orders[o.clientOrderId].status in {Filled, PartiallyFilled}
    ensures var (after, r) := Delivered(c, d, o, price, None); r.Err? ==> after == d
  {
    hide Delivered, Traded, Covered, ValidStore;
    Delivery(c, d, o, price, None);
    if Delivered(c, d, o, price, None).1.Ok? {
      FillQuantityBounded(c, o.quantity, None);
    }
  }

  /**
   * However calls for other orders interleave, n answered calls for an order leave exactly
   * quantity * (1 - ratio)^n of it unfilled.
   */
  lemma {:induction false} GeometricRemainder(c: Rates, d: Desk, es: seq<Event>, id: string, n: nat)
    requires ValidStore(d.orders) && ShortBy(c, d.orders, id, n)
    requires Unconstrained(es, id) && PositiveFor(es, id)
    ensures ShortBy(c, Run(c, d, es).orders, id, n + Successes(c, d, es, id))
    decreases |es|
  {
    hide Next, Answer, ShortBy, ValidStore;
    if es != [] {
      assert Unconstrained(es[1..], id) && PositiveFor(es[1..], id);
      var next := Next(c, d, es[0]);
      StepShape(c, d, es[0]);
      if EventId(es[0]) == id {
        ShortOneMore(c, d, es[0], n);
        GeometricRemainder(c, next, es[1..], id, if Answer(c, d, es[0]).Replied? then n + 1 else n);
      } else {
        ShortUntouched(c, d, es[0], id, n);
        GeometricRemainder(c, next, es[1..], id, n);
      }
    }
  }

  lemma ShortUntouched(c: Rates, d: Desk, e: Event, id: string, n: nat)
    requires EventId(e) != id && ShortBy(c, d.orders, id, n)
    ensures ShortBy(c, Next(c, d, e).orders, id, n)
  {
    hide Next;
    OtherOrderUntouched(c, d, e, id);
  }

  /** So an engine that fills less than the whole request never completes an order. */
  lemma PartialRatioNeverCompletes(c: Rates, d: Desk, es: seq<Event>, id: string)
    requires ValidStore(d.orders) && id !in d.orders
    requires Unconstrained(es, id) && PositiveFor(es, id)
    requires c.maxFillRatio < 1.0
    ensures id in Run(c, d, es).orders ==> Run(c, d, es).orders[id].status != Filled
  {
    hide Run, ValidStore, Unconstrained, PositiveFor;
    GeometricRemainder(c, d, es, id, 0);
    AccountAgreesWithOrders(c, d, es, "");
    ShortIsUnfinished(c, Run(c, d, es).orders, id, Successes(c, d, es, id));
  }

  lemma ShortIsUnfinished(c: Rates, orders: Store, id: string, n: nat)
    requires ValidStore(orders) && ShortBy(c, orders, id, n) && c.maxFillRatio < 1.0
    ensures id in orders ==> orders[id].status != Filled
  {
    PowerPositive(1.0 - c.maxFillRatio, n);
    hide Power;
    if id in orders {
      MulStrict(0.0, orders[id].quantity, Power(1.0 - c.maxFillRatio, n));
      assert Unfilled(orders[id]) > 0.0;
    }
  }
}
