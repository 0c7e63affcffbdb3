/** Orders as the trading engine sees them: db-service/src/schema/orders.rs and schema/enums/mod.rs. */
module Orders {

  datatype OrderSide = Buy | Sell

  datatype OrderStatus =
    | Open | Filled | Cancelled | Expired | StatusUnspecified | PendingUpdate | PendingCancel | PartialFill

  datatype OrderType = Limit | Market | StopLoss | TakeProfit

  datatype Outcome = Yes | No | Unspecified

  /** The value of an order at one moment. */
  datatype OrderData = OrderData(
    id: nat,
    userId: nat,
    marketId: nat,
    outcome: Outcome,
    side: OrderSide,
    orderType: OrderType,
    price: real,
    quantity: real,
    filled: real,
    status: OrderStatus)

  /** An order that the engine updates in place while it processes it. */
  class Order {
    const id: nat
    const userId: nat
    const marketId: nat
    const outcome: Outcome
    const side: OrderSide
    const orderType: OrderType
    var price: real
    var quantity: real
    var filledQuantity: real
    var status: OrderStatus

    constructor (d: OrderData)
      ensures Data() == d
    {
      id, userId, marketId, outcome, side, orderType := d.id, d.userId, d.marketId, d.outcome, d.side, d.orderType;
      price, quantity, filledQuantity, status := d.price, d.quantity, d.filled, d.status;
    }

    function Data(): OrderData
      reads this
    {
      OrderData(id, userId, marketId, outcome, side, orderType, price, quantity, filledQuantity, status)
    }
  }
}
