/** Feed messages, orders and fills as values
    (include/feed/BinaryProtocol.h, include/core/Order.h, include/matching/MatchingEngine.h). */
module Protocol {

  const TWO_32: int := 0x1_0000_0000
  const TWO_64: int := 0x1_0000_0000_0000_0000

  type u8 = x: int | 0 <= x < 0x100
  type u32 = x: int | 0 <= x < 0x1_0000_0000
  type u64 = x: int | 0 <= x < 0x1_0000_0000_0000_0000

  datatype Side = BUY | SELL {
    function Opposite(): Side {
      if BUY? then SELL else BUY
    }
  }

  datatype OrderType = LIMIT | MARKET | IOC

  /** Enumerators of a message arrive as raw bytes; any byte value can be on the wire. */
  datatype FeedMessage = FeedMessage(sequence: u64, orderId: u64, symbolPacked: u64, price: u32, qty: u32,
                                     msgType: u8, side: u8, orderType: u8)

  const ADD: u8 := 0
  const CANCEL: u8 := 1
  const MODIFY: u8 := 2

  function SideOf(b: u8): Side {
    if b == 0 then BUY else SELL
  }

  function TypeOf(b: u8): OrderType {
    if b == 0 then LIMIT else if b == 1 then MARKET else IOC
  }

  predicate IsValidFeedMessage(m: FeedMessage) {
    && m.msgType <= 2
    && m.orderId != 0
    && (m.msgType == ADD ==>
          && m.side <= 1 && m.orderType <= 2 && m.qty != 0
          && (TypeOf(m.orderType) != MARKET ==> m.price != 0))
    && (m.msgType == MODIFY ==> m.price != 0 && m.qty != 0)
  }

  /** A message that can trade or put an order into the book. */
  predicate Enters(m: FeedMessage) {
    IsValidFeedMessage(m) && m.msgType != CANCEL
  }

  /** A message that can put an order into the book: a LIMIT ADD or a MODIFY. */
  predicate Rests(m: FeedMessage) {
    Enters(m) && (m.msgType == ADD ==> TypeOf(m.orderType) == LIMIT)
  }

  /** The value part of an order: everything but its list links. */
  datatype Ticket = Ticket(orderId: u64, symbolPacked: u64, price: u32, qty: u32, filledQty: u32, side: Side) {
    predicate Filled() {
      filledQty >= qty
    }

    /** Clamped to zero, so that an overfill cannot wrap around. */
    function Remaining(): u32 {
      if filledQty >= qty then 0 else qty - filledQty
    }

    function Take(q: u32): Ticket
      requires q <= Remaining()
    {
      this.(filledQty := filledQty + q)
    }
  }

  function TicketOf(m: FeedMessage): Ticket {
    Ticket(m.orderId, m.symbolPacked, m.price, m.qty, 0, SideOf(m.side))
  }

  datatype Fill = Fill(buyOrderId: u64, sellOrderId: u64, price: u32, qty: u32, timestamp: u64, symbolPacked: u64)

  /** The record of one trade: the taker's symbol, the given price and the logical time of the message. */
  function FillOf(maker: Ticket, taker: Ticket, price: u32, qty: u32, ts: u64): Fill {
    if taker.side.BUY? then Fill(taker.orderId, maker.orderId, price, qty, ts, taker.symbolPacked)
    else Fill(maker.orderId, taker.orderId, price, qty, ts, taker.symbolPacked)
  }

  function Min(a: u32, b: u32): u32 {
    if a <= b then a else b
  }
}
