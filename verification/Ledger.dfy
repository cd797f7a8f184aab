/** The P&L ledger (`pnl.py`): average-cost positions and realised profit. */
module Ledger {
  import opened Base
  import opened Money
  import opened Orders

  datatype Position = Position(quantity: real, averagePrice: real, realized: real)

  datatype LedgerError = NonPositiveFill | SellExceedsPosition | NonPositiveMark

  const FLAT := Position(0.0, 0.0, 0.0)

  /** The average cost after adding a purchase to a holding. */
  function AverageCost(average: real, held: real, price: real, bought: real): (r: real)
    requires held + bought != 0.0
  {
    (Product(average, held) + Product(price, bought)) / (held + bought)
  }

  function Applied(p: Position, side: Side, quantity: real, price: real): (r: Result<Position, LedgerError>)
    requires 0.0 <= p.quantity
    ensures r.Ok? <==> quantity > 0.0 && price > 0.0 && (side == Buy || quantity <= p.quantity)
    ensures r.Ok? ==> r.value.quantity == (if side == Buy then p.quantity + quantity else p.quantity - quantity) >= 0.0
  {
    if quantity <= 0.0 || price <= 0.0 then Err(NonPositiveFill)
    else if side == Buy then
      Ok(Position(p.quantity + quantity, AverageCost(p.averagePrice, p.quantity, price, quantity), p.realized))
    else if quantity > p.quantity then Err(SellExceedsPosition)
    else
      var newQty := p.quantity - quantity;
      Ok(Position(newQty, if newQty == 0.0 then 0.0 else p.averagePrice,
                  p.realized + Product(price - p.averagePrice, quantity)))
  }

  function Unrealized(p: Position, mark: real): (r: real) {
    Product(mark - p.averagePrice, p.quantity)
  }

  class PortfolioLedger {
    var positions: map<string, Position>

    constructor ()
      ensures Valid() && positions == map[]
    {
      positions := map[];
    }

    /** No short positions. */
    predicate Valid()
      reads this
    {
      forall s :: s in positions ==> 0.0 <= positions[s].quantity
    }

    function PositionOf(symbol: string): (r: Position)
      reads this
    {
      GetOr(positions, symbol, FLAT)
    }

    method ApplyFill(symbol: string, side: Side, quantity: real, price: real) returns (r: Result<Position, LedgerError>)
      requires Valid()
      modifies this
      ensures Valid()
      ensures r == Applied(old(PositionOf(symbol)), side, quantity, price)
      ensures positions == if r.Ok? then old(positions)[symbol := r.value] else old(positions)
    {
      if quantity <= 0.0 || price <= 0.0 {
        return Err(NonPositiveFill);
      }
      var current := PositionOf(symbol);
      var updated;
      if side == Buy {
        var totalCost := Product(current.averagePrice, current.quantity) + Product(price, quantity);
        var newQty := current.quantity + quantity;
        updated := Position(newQty, totalCost / newQty, current.realized);
      } else {
        if quantity > current.quantity {
          return Err(SellExceedsPosition);
        }
        var realized := current.realized + Product(price - current.averagePrice, quantity);
        var newQty := current.quantity - quantity;
        updated := Position(newQty, if newQty == 0.0 then 0.0 else current.averagePrice, realized);
      }
      positions := positions[symbol := updated];
      r := Ok(updated);
    }

    method TotalPnl(symbol: string, mark: real) returns (r: Result<real, LedgerError>)
      ensures r == if mark <= 0.0 then Err(NonPositiveMark)
                   else Ok(PositionOf(symbol).realized + Unrealized(PositionOf(symbol), mark))
    {
      if mark <= 0.0 {
        return Err(NonPositiveMark);
      }
      var p := PositionOf(symbol);
      r := Ok(p.realized + Product(mark - p.averagePrice, p.quantity));
    }
  }

  // ----- Every history of fills of one symbol

  datatype LedgerFill = LedgerFill(side: Side, quantity: real, price: real)

  /** The position after a history; a refused fill leaves it as it was. */
  function Replayed(fills: seq<LedgerFill>): (p: Position)
    ensures 0.0 <= p.quantity
  {
    if fills == [] then FLAT
    else
      var f := fills[|fills| - 1];
      var r := Applied(Replayed(fills[..|fills| - 1]), f.side, f.quantity, f.price);
      if r.Ok? then r.value else Replayed(fills[..|fills| - 1])
  }

  /** The last fill of the history was accepted. */
  predicate Accepted(fills: seq<LedgerFill>)
    requires fills != []
  {
    var f := fills[|fills| - 1];
    Applied(Replayed(fills[..|fills| - 1]), f.side, f.quantity, f.price).Ok?
  }

  /** What the accepted fills of one side came to: total purchase cost, or total sale proceeds. */
  function Amount(fills: seq<LedgerFill>, side: Side): (r: real) {
    if fills == [] then 0.0
    else
      var f := fills[|fills| - 1];
      Amount(fills[..|fills| - 1], side)
        + (if Accepted(fills) && f.side == side then Product(f.price, f.quantity) else 0.0)
  }

  /** The accepted quantity of one side. */
  function Volume(fills: seq<LedgerFill>, side: Side): (r: real) {
    if fills == [] then 0.0
    else
      var f := fills[|fills| - 1];
      Volume(fills[..|fills| - 1], side) + (if Accepted(fills) && f.side == side then f.quantity else 0.0)
  }

  /** The prices bought at since the position was last flat. */
  function OpenPrices(fills: seq<LedgerFill>): (r: seq<real>) {
    if fills == [] then []
    else
      var before := OpenPrices(fills[..|fills| - 1]);
      if !Accepted(fills) then before
      else if fills[|fills| - 1].side == Buy then before + [fills[|fills| - 1].price]
      else if Replayed(fills).quantity == 0.0 then [] else before
  }

  /** One accepted fill moves realised less book value by exactly what was paid or received. */
  lemma AppliedBook(p: Position, side: Side, quantity: real, price: real)
    requires 0.0 <= p.quantity && Applied(p, side, quantity, price).Ok?
    ensures var next := Applied(p, side, quantity, price).value;
            next.realized - Product(next.averagePrice, next.quantity) ==
            p.realized - Product(p.averagePrice, p.quantity)
            + (if side == Buy then -Product(price, quantity) else Product(price, quantity))
  {
    if side == Sell {
      assert Product(price - p.averagePrice, quantity) == Product(price, quantity) - Product(p.averagePrice, quantity);
      assert Product(p.averagePrice, p.quantity - quantity)
        == Product(p.averagePrice, p.quantity) - Product(p.averagePrice, quantity);
    }
  }

  lemma UnrealizedSplit(p: Position, mark: real)
    ensures Unrealized(p, mark) == Product(mark, p.quantity) - Product(p.averagePrice, p.quantity)
  {
  }

  /**
   * For every history and every mark, realised plus unrealised P&L is total sale proceeds less total purchase
   * cost plus the held quantity at the mark; and the held quantity is what was bought less what was sold.
   */
  lemma {:induction false} PnlIsCashPlusMark(fills: seq<LedgerFill>, mark: real)
    ensures var p := Replayed(fills);
            && p.quantity == Volume(fills, Buy) - Volume(fills, Sell)
            && p.realized + Unrealized(p, mark)
               == Amount(fills, Sell) - Amount(fills, Buy) + Product(mark, p.quantity)
  {
    BookIsCash(fills);
    UnrealizedSplit(Replayed(fills), mark);
    hide *;
  }

  lemma {:induction false} BookIsCash(fills: seq<LedgerFill>)
    ensures var p := Replayed(fills);
            && p.quantity == Volume(fills, Buy) - Volume(fills, Sell)
            && p.realized - Product(p.averagePrice, p.quantity) == Amount(fills, Sell) - Amount(fills, Buy)
  {
    hide Applied, Product;
    if fills == [] {
      assert Product(0.0, 0.0) == 0.0 by { ProductZero(0.0); }
    } else {
      var before := fills[..|fills| - 1];
      var f := fills[|fills| - 1];
      BookIsCash(before);
      if Accepted(fills) {
        AppliedBook(Replayed(before), f.side, f.quantity, f.price);
      }
    }
  }

  predicate Bounded(prices: seq<real>, lo: real, hi: real) {
    forall i :: 0 <= i < |prices| ==> lo <= prices[i] <= hi
  }

  function Least(prices: seq<real>): (r: real)
    requires prices != []
  {
    if |prices| == 1 then prices[0]
    else
      var rest := Least(prices[1..]);
      if prices[0] < rest then prices[0] else rest
  }

  function Greatest(prices: seq<real>): (r: real)
    requires prices != []
  {
    if |prices| == 1 then prices[0]
    else
      var rest := Greatest(prices[1..]);
      if prices[0] > rest then prices[0] else rest
  }

  lemma {:induction false} LeastGreatestBound(prices: seq<real>)
    requires prices != []
    ensures Bounded(prices, Least(prices), Greatest(prices))
    ensures Least(prices) in prices && Greatest(prices) in prices
  {
    if |prices| > 1 {
      LeastGreatestBound(prices[1..]);
      assert prices == [prices[0]] + prices[1..];
    }
  }

  /** A weighted average lies between any bounds of its parts. */
  lemma AverageBetween(average: real, held: real, price: real, bought: real, lo: real, hi: real)
    requires 0.0 <= held && 0.0 < bought && lo <= price <= hi && (held > 0.0 ==> lo <= average <= hi)
    ensures lo <= AverageCost(average, held, price, bought) <= hi
  {
    var total := held + bought;
    if held > 0.0 {
      ProductBetween(average, held, lo, hi);
    } else {
      ProductZero(average);
      ProductZero(lo);
      ProductZero(hi);
    }
    ProductBetween(price, bought, lo, hi);
    ProductSum(lo, held, bought);
    ProductSum(hi, held, bought);
    DivideBetween(Product(average, held) + Product(price, bought), total, lo, hi);
  }

  lemma DivideBetween(cost: real, total: real, lo: real, hi: real)
    requires 0.0 < total && Product(lo, total) <= cost <= Product(hi, total)
    ensures lo <= cost / total <= hi
  {
  }

  /** Every open price was accepted, so it is positive; and there is one exactly while something is held. */
  lemma {:induction false} OpenPricesPositive(fills: seq<LedgerFill>)
    ensures forall i :: 0 <= i < |OpenPrices(fills)| ==> OpenPrices(fills)[i] > 0.0
    ensures Replayed(fills).quantity == 0.0 <==> OpenPrices(fills) == []
  {
    if fills != [] {
      OpenPricesPositive(fills[..|fills| - 1]);
    }
  }

  /** The average price stays within whatever bounds the BUY prices since the position was last flat. */
  lemma {:induction false} AverageWithinBounds(fills: seq<LedgerFill>, lo: real, hi: real)
    requires Bounded(OpenPrices(fills), lo, hi)
    ensures Replayed(fills).quantity > 0.0 ==> lo <= Replayed(fills).averagePrice <= hi
    ensures Replayed(fills).quantity == 0.0 ==> Replayed(fills).averagePrice == 0.0
    decreases |fills|
  {
    if fills != [] {
      var before := fills[..|fills| - 1];
      var f := fills[|fills| - 1];
      hide AverageCost, Product;
      OpenPricesPositive(before);
      if !Accepted(fills) {
        AverageWithinBounds(before, lo, hi);
      } else if f.side == Buy {
        assert OpenPrices(fills) == OpenPrices(before) + [f.price];
        assert forall i :: 0 <= i < |OpenPrices(before)| ==> OpenPrices(before)[i] == OpenPrices(fills)[i];
        assert OpenPrices(fills)[|OpenPrices(before)|] == f.price;
        AverageWithinBounds(before, lo, hi);
        var p := Replayed(before);
        AverageBetween(p.averagePrice, p.quantity, f.price, f.quantity, lo, hi);
      } else if Replayed(fills).quantity != 0.0 {
        AverageWithinBounds(before, lo, hi);
      }
    }
  }

  /**
   * Over every history, the average price is zero exactly when flat and otherwise lies between the lowest and
   * the highest BUY price since the position was last flat.
   */
  lemma AveragePriceBetweenOpenBuys(fills: seq<LedgerFill>)
    ensures var p, open := Replayed(fills), OpenPrices(fills);
            && (p.quantity == 0.0 <==> open == [])
            && (p.averagePrice == 0.0 <==> p.quantity == 0.0)
            && (open != [] ==> Least(open) <= p.averagePrice <= Greatest(open))
  {
    var open := OpenPrices(fills);
    OpenPricesPositive(fills);
    if open == [] {
      AverageWithinBounds(fills, 0.0, 0.0);
    } else {
      LeastGreatestBound(open);
      AverageWithinBounds(fills, Least(open), Greatest(open));
    }
  }
}
