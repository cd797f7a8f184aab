/** The idempotent order store (`order_lifecycle.py`). */
module Orders {
  import opened Base

  datatype Side = Buy | Sell

  datatype Status = New | PartiallyFilled | Filled | Canceled | Rejected

  datatype OrderRecord = OrderRecord(
    clientOrderId: string, symbol: string, side: Side, quantity: real, filled: real, status: Status)

  type Store = map<string, OrderRecord>

  datatype StoreError = ConflictingOrder | InvalidFillQuantity | UnknownOrder

  predicate Terminal(s: Status) {
    s == Filled || s == Canceled || s == Rejected
  }

  function Submitted(orders: Store, order: OrderRecord): (r: (Store, Result<OrderRecord, StoreError>)) {
    if order.clientOrderId !in orders then (orders[order.clientOrderId := order], Ok(order))
    else if orders[order.clientOrderId] != order then (orders, Err(ConflictingOrder))
    else (orders, Ok(order))
  }

  function WithFill(r: OrderRecord, quantity: real): (result: OrderRecord) {
    var filled := r.filled + quantity;
    r.(filled := filled, status := if filled == r.quantity then Filled else PartiallyFilled)
  }

  function AfterFill(orders: Store, id: string, quantity: real): (r: (Store, Result<OrderRecord, StoreError>)) {
    if id !in orders then (orders, Err(UnknownOrder))
    else if quantity <= 0.0 || orders[id].filled + quantity > orders[id].quantity
      then (orders, Err(InvalidFillQuantity))
    else (orders[id := WithFill(orders[id], quantity)], Ok(WithFill(orders[id], quantity)))
  }

  function AfterCancel(orders: Store, id: string): (r: (Store, Result<OrderRecord, StoreError>)) {
    if id !in orders then (orders, Err(UnknownOrder))
    else if Terminal(orders[id].status) then (orders, Ok(orders[id]))
    else (orders[id := orders[id].(status := Canceled)], Ok(orders[id].(status := Canceled)))
  }

  class OrderLifecycle {
    var orders: Store

    constructor ()
      ensures orders == map[]
    {
      orders := map[];
    }

    method Submit(order: OrderRecord) returns (r: Result<OrderRecord, StoreError>)
      modifies this
      ensures (orders, r) == Submitted(old(orders), order)
    {
      if order.clientOrderId in orders {
        var existing := orders[order.clientOrderId];
        if existing != order {
          return Err(ConflictingOrder);
        }
        return Ok(existing);
      }
      orders := orders[order.clientOrderId := order];
      r := Ok(order);
    }

    method Fill(id: string, quantity: real) returns (r: Result<OrderRecord, StoreError>)
      modifies this
      ensures (orders, r) == AfterFill(old(orders), id, quantity)
    {
      if id !in orders {
        return Err(UnknownOrder);
      }
      var current := orders[id];
      if quantity <= 0.0 || current.filled + quantity > current.quantity {
        return Err(InvalidFillQuantity);
      }
      var filled := current.filled + quantity;
      var status := if filled == current.quantity then Filled else PartiallyFilled;
      var updated := current.(filled := filled, status := status);
      orders := orders[id := updated];
      r := Ok(updated);
    }

    method Cancel(id: string) returns (r: Result<OrderRecord, StoreError>)
      modifies this
      ensures (orders, r) == AfterCancel(old(orders), id)
    {
      if id !in orders {
        return Err(UnknownOrder);
      }
      var current := orders[id];
      if current.status in {Filled, Canceled, Rejected} {
        return Ok(current);
      }
      var updated := current.(status := Canceled);
      orders := orders[id := updated];
      r := Ok(updated);
    }
  }

  // ----- What each call answers

  /** A new record is stored, an equal one answered, and a different one under a known id refused. */
  lemma SubmitAnswers(orders: Store, order: OrderRecord)
    ensures var (after, r) := Submitted(orders, order);
            var id := order.clientOrderId;
            && (id !in orders ==> r == Ok(order) && after == orders[id := order])
            && (id in orders ==>
                after == orders && r == if orders[id] == order then Ok(order) else Err(ConflictingOrder))
  {
  }

  /** A fill of a known id by a positive quantity that fits adds to the record, and any other is refused by name. */
  lemma FillAnswers(orders: Store, id: string, quantity: real)
    ensures var (after, r) := AfterFill(orders, id, quantity);
            && (r == Err(UnknownOrder) <==> id !in orders)
            && (r == Err(InvalidFillQuantity) <==>
                id in orders && (quantity <= 0.0 || orders[id].quantity < orders[id].filled + quantity))
            && (r.Err? ==> r.error in {UnknownOrder, InvalidFillQuantity} && after == orders)
            && (r.Ok? ==>
                  var known, now := orders[id], r.value;
                  && after == orders[id := now] && now == known.(filled := now.filled, status := now.status)
                  && now.filled == known.filled + quantity
                  && now.status == if now.filled == known.quantity then Filled else PartiallyFilled)
  {
  }

  /** A cancel of a known id cancels its record unless it is finished, and answers the record. */
  lemma CancelAnswers(orders: Store, id: string)
    ensures var (after, r) := AfterCancel(orders, id);
            if id !in orders then after == orders && r == Err(UnknownOrder)
            else if orders[id].status in {Filled, Canceled, Rejected} then after == orders && r == Ok(orders[id])
            else r == Ok(orders[id].(status := Canceled)) && after == orders[id := orders[id].(status := Canceled)]
  {
  }

  // ----- What every record in the store satisfies

  /** Never overfilled, and the status agrees with the filled quantity. */
  predicate ValidRecord(r: OrderRecord) {
    && 0.0 <= r.filled
    && (r.filled > 0.0 ==> r.filled <= r.quantity)
    && (r.status == New ==> r.filled == 0.0)
    && (r.status == PartiallyFilled ==> 0.0 < r.filled < r.quantity)
    && (r.status == Filled ==> 0.0 < r.filled == r.quantity)
    && (r.status == Canceled ==> r.filled == 0.0 || r.filled < r.quantity)
  }

  predicate ValidStore(orders: Store) {
    forall id :: id in orders ==> orders[id].clientOrderId == id && ValidRecord(orders[id])
  }

  /** One call on the order store. */
  datatype StoreCall = SubmitCall(order: OrderRecord) | FillCall(id: string, quantity: real) | CancelCall(id: string)

  function Fresh(id: string, symbol: string, side: Side, quantity: real): (r: OrderRecord) {
    OrderRecord(id, symbol, side, quantity, 0.0, New)
  }

  function AfterCall(orders: Store, call: StoreCall): (r: Store) {
    match call
    case SubmitCall(order) => Submitted(orders, order).0
    case FillCall(id, quantity) => AfterFill(orders, id, quantity).0
    case CancelCall(id) => AfterCancel(orders, id).0
  }

  function AfterCalls(orders: Store, calls: seq<StoreCall>): (r: Store)
    decreases |calls|
  {
    if calls == [] then orders else AfterCalls(AfterCall(orders, calls[0]), calls[1..])
  }

  /** The record is still there, with the same labels and no less filled. */
  predicate Kept(before: OrderRecord, now: OrderRecord) {
    && now.clientOrderId == before.clientOrderId && now.symbol == before.symbol && now.side == before.side
    && now.quantity == before.quantity && now.filled >= before.filled
  }

  /** Over any calls in any order, whatever they submit, no record is lost, shrunk or re-labelled. */
  lemma {:induction false} RecordsAreKept(orders: Store, calls: seq<StoreCall>)
    ensures forall id :: id in orders ==>
              id in AfterCalls(orders, calls) && Kept(orders[id], AfterCalls(orders, calls)[id])
    decreases |calls|
  {
    if calls != [] {
      RecordsAreKept(AfterCall(orders, calls[0]), calls[1..]);
    }
  }

  /** Each record that is submitted under a new id is valid. */
  predicate SubmitsValid(orders: Store, calls: seq<StoreCall>)
    decreases |calls|
  {
    calls != [] ==>
      && (calls[0].SubmitCall? && calls[0].order.clientOrderId !in orders ==> ValidRecord(calls[0].order))
      && SubmitsValid(AfterCall(orders, calls[0]), calls[1..])
  }

  /** The store is valid after every call. */
  predicate ValidAlong(orders: Store, calls: seq<StoreCall>)
    decreases |calls|
  {
    ValidStore(orders) && (calls != [] ==> ValidAlong(AfterCall(orders, calls[0]), calls[1..]))
  }

  lemma CallKeepsValid(orders: Store, call: StoreCall)
    requires ValidStore(orders)
    ensures ValidStore(AfterCall(orders, call)) <==>
            (call.SubmitCall? && call.order.clientOrderId !in orders ==> ValidRecord(call.order))
  {
    hide ValidRecord;
    match call
    case SubmitCall(order) =>
      if order.clientOrderId !in orders {
        assert Submitted(orders, order).0[order.clientOrderId] == order;
      }
    case FillCall(id, quantity) =>
      if id in orders {
        FillKeepsValid(orders[id], quantity);
      }
    case CancelCall(id) =>
      if id in orders {
        FillKeepsValid(orders[id], 0.0);
      }
  }

  lemma FillKeepsValid(r: OrderRecord, quantity: real)
    requires ValidRecord(r)
    ensures 0.0 < quantity && r.filled + quantity <= r.quantity ==> ValidRecord(WithFill(r, quantity))
    ensures !Terminal(r.status) ==> ValidRecord(r.(status := Canceled))
  {
  }

  /**
   * A valid store is valid after every call if and only if each record submitted under a new id is: no fill or cancel
   * ever overfills a record or gives it a status that disagrees with its filled quantity.
   */
  lemma {:induction false} StoreStaysValid(orders: Store, calls: seq<StoreCall>)
    requires ValidStore(orders)
    ensures ValidAlong(orders, calls) <==> SubmitsValid(orders, calls)
    ensures SubmitsValid(orders, calls) ==> ValidStore(AfterCalls(orders, calls))
    decreases |calls|
  {
    hide ValidStore, ValidRecord, AfterCall;
    if calls != [] {
      CallKeepsValid(orders, calls[0]);
      var next := AfterCall(orders, calls[0]);
      if ValidStore(next) {
        StoreStaysValid(next, calls[1..]);
      }
    }
  }

  /**
   * `fill` does not look at the status: a cancelled order with quantity left re-opens. That terminal
   * orders stay terminal is therefore the gateway's doing (see GatewayRuns.TerminalOrderIsFrozen).
   */
  lemma FillReopensCanceled(orders: Store, id: string, quantity: real)
    requires ValidStore(orders) && id in orders && orders[id].status == Canceled
    ensures var (after, r) := AfterFill(orders, id, quantity);
            r.Ok? <==> 0.0 < quantity <= orders[id].quantity - orders[id].filled
    ensures var (after, r) := AfterFill(orders, id, quantity);
            if r.Ok? then after[id].status in {Filled, PartiallyFilled} else after == orders
  {
  }
}
