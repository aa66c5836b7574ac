/** The value types of the matching engine (src/common/Types.hpp).

    Prices are fixed-point integers (1 unit is 10^-8), so they are modelled as `int`.
    Quantities and ids are `nat`; the places where the 64-bit width of a quantity can be
    felt (the accumulating sums) use `Add64` below. Wall-clock fields are dropped. */
module Types {
  const TWO64: nat := 0x1_0000_0000_0000_0000
  const UINT64_MAX: nat := TWO64 - 1

  datatype Side = Buy | Sell
  datatype OrderType = Market | Limit | StopMarket | StopLimit
  datatype TimeInForce = Day | GTC | IOC | FOK
  datatype OrderStatus = New | PartiallyFilled | Filled | Cancelled | Rejected
  datatype TradingPhase = PreOpen | Opening | CTS | Closed

  datatype Order = Order(
    orderId: nat, clOrdId: nat, symbolIdx: nat, side: Side, ordType: OrderType, tif: TimeInForce,
    price: int, quantity: nat, remainingQty: nat, sessionId: nat, status: OrderStatus, stopPrice: int)

  datatype Trade = Trade(
    tradeId: nat, symbolIdx: nat, price: int, quantity: nat, buyOrderId: nat, sellOrderId: nat,
    buyClOrdId: nat, sellClOrdId: nat, buySessionId: nat, sellSessionId: nat)

  datatype ExecutionReport = ExecutionReport(
    orderId: nat, clOrdId: nat, status: OrderStatus, filledQty: int, remainingQty: nat,
    lastPrice: int, lastQty: nat, tradeId: nat)

  datatype Option<+T> = None | Some(value: T)

  function Min(a: int, b: int): int { if a < b then a else b }

  function Max(a: int, b: int): int { if a < b then b else a }

  /** What is left of `a` after taking `b` away, never below zero. */
  function Monus(a: nat, b: nat): nat { if a < b then 0 else a - b }

  /** Addition of two unsigned 64-bit quantities. */
  function Add64(a: nat, b: nat): nat { (a + b) % TWO64 }

  predicate IsStop(o: Order) { o.ordType.StopMarket? || o.ordType.StopLimit? }

  function Opposite(side: Side): Side { if side == Buy then Sell else Buy }
}
