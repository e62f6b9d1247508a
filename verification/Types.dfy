/** Fixed-width integers, orders and normalised market events (include/efe/types.hpp, include/efe/events.hpp). */
module Types {

  const U16_MAX: int := 0xFFFF
  const U32_MAX: int := 0xFFFF_FFFF
  const U64_MAX: int := 0xFFFF_FFFF_FFFF_FFFF

  type u8 = x: int | 0 <= x <= 0xFF
  type u16 = x: int | 0 <= x <= 0xFFFF
  type u32 = x: int | 0 <= x <= 0xFFFF_FFFF
  type u64 = x: int | 0 <= x <= 0xFFFF_FFFF_FFFF_FFFF

  /** The slot number that stands for "no slot". */
  const INVALID_SLOT: u32 := 0xFFFF_FFFF

  datatype Option<+T> = None | Some(value: T)

  /** The outcome of an operation that may throw. */
  datatype Result<+T> = Ok(value: T) | Err(error: Failure)

  datatype Failure =
    | Truncated
    | TrailingBytes
    | SequenceRangeOverflow
    | InvalidRequestCount
    | EmptyMessage
    | UnsupportedType
    | LengthMismatch
    | InvalidSide
    | SessionChanged
    | SequenceExhausted

  /** A fixed-width, space-padded stock symbol. */
  type Symbol = s: seq<u8> | |s| == 8 witness [0, 0, 0, 0, 0, 0, 0, 0]

  datatype Side = Buy | Sell

  datatype Order = Order(id: u64, symbol: Symbol, side: Side, quantity: u32, price: u32)

  datatype EventMeta = EventMeta(stockLocate: u16, trackingNumber: u16, timestamp: u64)

  datatype MarketEvent =
    | AddEvent(meta: EventMeta, order: Order)
    | ExecuteEvent(meta: EventMeta, orderId: u64, executedShares: u32, matchNumber: u64,
                   hasExecutionPrice: bool, executionPrice: u32, printable: bool)
    | CancelEvent(meta: EventMeta, orderId: u64, canceledShares: u32)
    | DeleteEvent(meta: EventMeta, orderId: u64)
    | ReplaceEvent(meta: EventMeta, oldOrderId: u64, newOrderId: u64, newQuantity: u32, newPrice: u32)
}
