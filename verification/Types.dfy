/** Identifiers, sides and the three message records (timestamps are not modelled). */
module Types {

  type UInt32 = x: int | 0 <= x < 0x1_0000_0000
  type UInt64 = x: int | 0 <= x < 0x1_0000_0000_0000_0000
  type Int64 = x: int | -0x8000_0000_0000_0000 <= x < 0x8000_0000_0000_0000

  type TickerId = UInt32
  type OrderId = UInt32
  type TradeId = UInt32
  type ClientId = UInt32
  type Quantity = UInt32
  type Price = UInt64

  const INVALID_UINT32: UInt32 := 0xFFFF_FFFF
  const INVALID_PRICE: Price := 0xFFFF_FFFF_FFFF_FFFF

  /** `x++` on a `uint32_t`. */
  function Next(x: UInt32): UInt32 {
    (x + 1) % 0x1_0000_0000
  }

  function Min(a: UInt32, b: UInt32): UInt32 {
    if b < a then b else a
  }

  datatype OrderSide = Invalid | Buy | Sell

  /** Every branch of the engine tests `side == BUY`; any other value takes the sell branch. */
  predicate IsBuy(side: OrderSide) {
    side == Buy
  }

  /** One value for the bid side and one for the ask side. */
  datatype Sides<T> = Sides(bids: T, asks: T) {
    function At(buy: bool): T {
      if buy then bids else asks
    }

    function With(buy: bool, value: T): Sides<T> {
      if buy then this.(bids := value) else this.(asks := value)
    }
  }

  datatype Option<+T> = None | Some(value: T)

  datatype ResponseType = Accepted | Filled | Canceled | CancelRejected

  datatype ClientResponse = ClientResponse(
    kind: ResponseType, tickerId: TickerId, clientId: ClientId, orderId: OrderId,
    side: OrderSide, quantity: Quantity, price: Price)

  datatype UpdateType = Added | Modified | Removed | Traded

  datatype MarketUpdate = MarketUpdate(
    kind: UpdateType, tickerId: TickerId, orderId: OrderId, tradeId: TradeId,
    side: OrderSide, quantity: Quantity, price: Price)

  datatype RequestType = InvalidRequest | AddRequest | CancelRequest

  datatype ClientRequest = ClientRequest(
    kind: RequestType, tickerId: TickerId, clientId: ClientId, orderId: OrderId,
    side: OrderSide, quantity: Quantity, price: Price)
}
