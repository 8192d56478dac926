/** What each message does to the book, in terms of the bytes on the wire (include/feed/BinaryProtocol.h,
    src/ReplayEngine.cpp): message type 0 is ADD, 1 CANCEL, 2 MODIFY; side 0 is BUY, 1 SELL; order type 0 is LIMIT,
    1 MARKET, 2 IOC. */
module Effects {
  import opened Protocol
  import opened Ladders
  import opened Sweep
  import opened BookInvariants

  /** What is left of an order that has received `v` of its quantity rests, and it alone has its id. */
  ghost predicate RestsWith(b: Book, t: Ticket, v: nat) {
    && v < t.qty
    && Contains(b, t.orderId) && Find(b, t.orderId) == t.(filledQty := v)
  }

  /** No order is left that a taker on this side could trade with at this price. */
  ghost predicate NothingCrosses(b: Book, side: Side, price: u32) {
    if side == BUY then forall p | p in b.asks :: p > price else forall p | p in b.bids :: p < price
  }

  lemma SubmitEffect(b: Book, t: Ticket, ty: OrderType, ts: u64)
    requires BookOk(b) && (ty != MARKET ==> t.price != 0) && !Contains(b, t.orderId) && t.filledQty == 0
    ensures var r := Submit(b, t, ty, ts);
            var v := Volume(r.fills);
            && v <= t.qty
            && (ty == LIMIT && v < t.qty ==> RestsWith(r.book, t, v))
            && (ty != LIMIT || v == t.qty ==> !Contains(r.book, t.orderId))
            && (v < t.qty && ty != MARKET ==> NothingCrosses(r.book, t.side, t.price))
            && (v < t.qty && ty == MARKET ==> r.book.On(t.side.Opposite()) == map[])
  {
    hide Match, Volume, WellFormed, Contains, Total, Uncrossed;
    var opp := t.side.Opposite();
    var m := Match(b.On(opp), t, ty != MARKET, ts);
    MatchTotal(b.On(opp), t, ty != MARKET, ts);
    MatchStopsAtBest(b.On(opp), t, ty != MARKET, ts);
    MatchAddsNoId(b, t, ty != MARKET, ts, t.orderId);
    var left := b.With(opp, m.ladder);
    if ty == LIMIT && !m.taker.Filled() {
      RestedIsFound(left, m.taker);
    }
  }

  lemma RestedIsFound(b: Book, t: Ticket)
    requires !Contains(b, t.orderId)
    ensures var r := b.With(t.side, Rest(b.On(t.side), t)); Contains(r, t.orderId) && Find(r, t.orderId) == t
  {
    var r := b.With(t.side, Rest(b.On(t.side), t));
    RestHolds(b, t);
    assert Holds(r, t);
  }

  /** A message with a bad type, no id, or, by its type, a bad side, order type, quantity or price, changes nothing. */
  lemma MalformedIgnored(b: Book, m: FeedMessage)
    requires BookOk(b)
    requires || m.msgType > 2 || m.orderId == 0
             || (m.msgType == 0 && (m.side > 1 || m.orderType > 2 || m.qty == 0 || (m.orderType != 1 && m.price == 0)))
             || (m.msgType == 2 && (m.price == 0 || m.qty == 0))
    ensures Apply(b, m) == Outcome(b, [])
  {
  }

  /** Every other ADD under an id that does not rest trades what it can; what is left of a LIMIT order rests on its
      side at its price, and of any other order is gone. An ADD under a resting id changes nothing. */
  lemma AddTakesEffect(b: Book, m: FeedMessage)
    requires BookOk(b) && m.msgType == 0 && m.orderId != 0
    requires m.side <= 1 && m.orderType <= 2 && m.qty != 0 && (m.orderType == 1 || m.price != 0)
    ensures var r := Apply(b, m);
            var v := Volume(r.fills);
            var side := if m.side == 0 then BUY else SELL;
            if Contains(b, m.orderId) then r == Outcome(b, [])
            else
              && v <= m.qty
              && (m.orderType == 0 && v < m.qty ==>
                    RestsWith(r.book, Ticket(m.orderId, m.symbolPacked, m.price, m.qty, 0, side), v))
              && (m.orderType != 0 || v == m.qty ==> !Contains(r.book, m.orderId))
              && (v < m.qty && m.orderType != 1 ==> NothingCrosses(r.book, side, m.price))
              && (v < m.qty && m.orderType == 1 ==> (if m.side == 0 then r.book.asks else r.book.bids) == map[])
  {
    hide Submit, Contains, BookOk, RestsWith, NothingCrosses;
    if !Contains(b, m.orderId) {
      SubmitEffect(b, TicketOf(m), TypeOf(m.orderType), m.sequence);
    } else {
      RefusedChangesNothing(b, TicketOf(m), TypeOf(m.orderType), m.sequence);
    }
  }

  lemma RefusedChangesNothing(b: Book, t: Ticket, ty: OrderType, ts: u64)
    requires BookOk(b) && (ty != MARKET ==> t.price != 0) && Contains(b, t.orderId)
    ensures Submit(b, t, ty, ts) == Outcome(b, [])
  {
  }

  /** A CANCEL removes the order with its id, if there is one, and nothing else. */
  lemma CancelTakesEffect(b: Book, m: FeedMessage)
    requires BookOk(b) && m.msgType == 1 && m.orderId != 0
    ensures var r := Apply(b, m);
            r.fills == [] && forall t :: Holds(r.book, t) <==> Holds(b, t) && t.orderId != m.orderId
  {
    CancelRemoves(b, Cancel(b, m.orderId), m.orderId);
  }

  /** A MODIFY of a resting order trades what it can under the new price and quantity; what is left rests, on the same
      side, at the new price. A MODIFY of any other id changes nothing. */
  lemma ModifyTakesEffect(b: Book, m: FeedMessage)
    requires BookOk(b) && m.msgType == 2 && m.orderId != 0 && m.price != 0 && m.qty != 0
    ensures var r := Apply(b, m);
            var v := Volume(r.fills);
            if !Contains(b, m.orderId) then r == Outcome(b, [])
            else
              var t := Find(b, m.orderId).(price := m.price, qty := m.qty, filledQty := 0);
              && v <= m.qty && t.orderId == m.orderId
              && (v < m.qty ==> RestsWith(r.book, t, v) && NothingCrosses(r.book, t.side, m.price))
              && (v == m.qty ==> !Contains(r.book, m.orderId))
  {
    hide Submit, Contains, BookOk, RestsWith, NothingCrosses, Cancel;
    if Contains(b, m.orderId) {
      SubmitEffect(Cancel(b, m.orderId), Find(b, m.orderId).(price := m.price, qty := m.qty, filledQty := 0), LIMIT,
                   m.sequence);
    }
  }
}
