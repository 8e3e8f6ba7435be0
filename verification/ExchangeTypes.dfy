/** Domain types of the exchange simulator: orders, fills and their enumerations.
    Prices and timestamps are unbounded integers, quantities are natural numbers. */
module ExchangeTypes {
  type Price = int
  type Timestamp = int
  type OrderId = nat
  type SymbolId = nat

  const INVALID_ORDER_ID: OrderId := 0

  datatype Side = Buy | Sell | Unknown

  // Stop orders are not part of this model.
  datatype OrderType = Market | Limit | IOC | FOK

  datatype OrderStatus = New | PartiallyFilled | Filled | Cancelled | Rejected

  datatype RejectReason = NoReason | InsufficientLiquidity | InvalidQuantity | UnknownSymbol

  /** One order through its lifecycle. The program copies orders by value; a reference
      parameter that the program mutates is an in-parameter paired with an out-parameter here. */
  datatype Order = Order(
    id: OrderId,
    symbolId: SymbolId,
    side: Side,
    otype: OrderType,
    limitPrice: Price,
    qty: nat,
    filledQty: nat,
    status: OrderStatus,
    rejectReason: RejectReason,
    submitTs: Timestamp,
    lastFillTs: Timestamp,
    queuePos: nat)
  {
    function Leaves(): int { qty - filledQty }

    predicate IsBuy() { side == Buy }

    predicate WellFormed() { filledQty <= qty }
  }

  /** One side of an execution; every execution yields an aggressive and a passive fill. */
  datatype Fill = Fill(
    id: nat,
    orderId: OrderId,
    symbolId: SymbolId,
    side: Side,
    price: Price,
    qty: nat,
    timestamp: Timestamp,
    aggressive: bool)
}
