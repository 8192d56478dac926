/** Who buys and who sells: a fill names the incoming order on its own side and an order that rested on the opposite
    side, at that order's price (src/MatchingEngine.cpp, include/matching/ReferenceMatcher.h). */
module Parties {
  import opened Protocol
  import opened Ladders
  import opened BookInvariants
  import R = Reference

  /** The fill is a purchase by order `id` from an order resting among the asks at the fill's price. */
  ghost predicate Bought(b: Book, f: Fill, id: u64) {
    && f.buyOrderId == id && f.qty > 0
    && exists t :: t in Level(b.asks, f.price) && t.side == SELL && f.sellOrderId == t.orderId
  }

  /** The fill is a sale by order `id` to an order resting among the bids at the fill's price. */
  ghost predicate Sold(b: Book, f: Fill, id: u64) {
    && f.sellOrderId == id && f.qty > 0
    && exists t :: t in Level(b.bids, f.price) && t.side == BUY && f.buyOrderId == t.orderId
  }

  ghost predicate AllBought(b: Book, fills: seq<Fill>, id: u64) {
    forall f | f in fills :: Bought(b, f, id)
  }

  ghost predicate AllSold(b: Book, fills: seq<Fill>, id: u64) {
    forall f | f in fills :: Sold(b, f, id)
  }

  // --- The engine ------------------------------------------------------------------------------

  /** The fill is between the taker and an order of this ladder at the fill's price. */
  ghost predicate Against(l: Ladder, taker: Ticket, f: Fill) {
    f.qty > 0 &&
    exists t :: t in Level(l, f.price) &&
                if taker.side.BUY? then f.buyOrderId == taker.orderId && f.sellOrderId == t.orderId
                else f.sellOrderId == taker.orderId && f.buyOrderId == t.orderId
  }

  /** What trades with a consumed level could have traded with it before. */
  lemma AgainstBefore(l: Ladder, p: u32, q: u32, taker: Ticket, f: Fill)
    requires p in l && l[p] != [] && q <= l[p][0].Remaining() && Against(Consume(l, p, q), taker, f)
    ensures Against(l, taker, f)
  {
    hide Consume;
    var s, s' := Level(l, f.price), Level(Consume(l, p, q), f.price);
    ConsumeShrinks(l, p, q, f.price);
    var t :| t in s' && if taker.side.BUY? then f.buyOrderId == taker.orderId && f.sellOrderId == t.orderId
                        else f.sellOrderId == taker.orderId && f.buyOrderId == t.orderId;
    var i :| 0 <= i < |s'| && s'[i] == t;
    assert Kept(s, s', i);
    assert s[|s| - |s'| + i] in s;
  }

  lemma {:induction false} MatchParties(l: Ladder, taker: Ticket, respectPrice: bool, ts: u64)
    requires WellFormed(l, taker.side.Opposite())
    ensures forall f | f in Match(l, taker, respectPrice, ts).fills :: Against(l, taker, f)
    decreases taker.Remaining()
  {
    if CanTrade(l, taker, respectPrice) {
      var p := BestPrice(l, taker.side);
      assert LevelOk(l[p], taker.side.Opposite(), p) && l[p][0] in l[p];
      var q := Min(taker.Remaining(), l[p][0].Remaining());
      ConsumeWellFormed(l, taker.side.Opposite(), p, q);
      var next := Match(Consume(l, p, q), taker.Take(q), respectPrice, ts);
      MatchParties(Consume(l, p, q), taker.Take(q), respectPrice, ts);
      hide Consume, WellFormed;
      forall f | f in next.fills ensures Against(l, taker, f) {
        assert Against(Consume(l, p, q), taker, f);
        AgainstBefore(l, p, q, taker, f);
      }
      assert l[p][0] in Level(l, p);
    }
  }

  lemma SubmitParties(b: Book, t: Ticket, ty: OrderType, ts: u64)
    requires BookOk(b) && (ty != MARKET ==> t.price != 0)
    ensures var fills := Submit(b, t, ty, ts).fills;
            (t.side == BUY ==> AllBought(b, fills, t.orderId)) && (t.side == SELL ==> AllSold(b, fills, t.orderId))
  {
    var opp := t.side.Opposite();
    MatchParties(b.On(opp), t, ty != MARKET, ts);
    var fills := Match(b.On(opp), t, ty != MARKET, ts).fills;
    hide Match;
    forall f | f in fills ensures t.side == BUY ==> Bought(b, f, t.orderId)
      ensures t.side == SELL ==> Sold(b, f, t.orderId)
    {
      assert Against(b.On(opp), t, f);
      assert forall u | u in Level(b.On(opp), f.price) :: u.side == opp by {
        LevelHolds(b, opp, f.price);
      }
    }
  }

  /** A book with fewer orders has fewer parties to trade with. */
  lemma MorePartners(b: Book, less: Book, fills: seq<Fill>, id: u64)
    requires forall t | Holds(less, t) :: Holds(b, t)
    requires BookOk(less)
    ensures AllBought(less, fills, id) ==> AllBought(b, fills, id)
    ensures AllSold(less, fills, id) ==> AllSold(b, fills, id)
  {
    forall f | f in fills
      ensures Bought(less, f, id) ==> Bought(b, f, id)
      ensures Sold(less, f, id) ==> Sold(b, f, id)
    {
      LevelHolds(less, SELL, f.price);
      LevelHolds(less, BUY, f.price);
      if Bought(less, f, id) {
        var t :| t in Level(less.asks, f.price) && t.side == SELL && f.sellOrderId == t.orderId;
        assert Holds(less, t);
      }
      if Sold(less, f, id) {
        var t :| t in Level(less.bids, f.price) && t.side == BUY && f.buyOrderId == t.orderId;
        assert Holds(less, t);
      }
    }
  }

  /** Every fill that a message makes: a buyer's message buys from the asks, a seller's sells to the bids, each under
      its own id; a MODIFY trades on the side its order rested on, and nothing else trades. */
  lemma ApplyParties(b: Book, m: FeedMessage)
    requires BookOk(b)
    ensures var fills := Apply(b, m).fills;
            && (m.msgType == 0 && m.side == 0 ==> AllBought(b, fills, m.orderId))
            && (m.msgType == 0 && m.side == 1 ==> AllSold(b, fills, m.orderId))
            && (m.msgType == 2 && Contains(b, m.orderId) && Find(b, m.orderId).side == BUY ==>
                  AllBought(b, fills, m.orderId))
            && (m.msgType == 2 && Contains(b, m.orderId) && Find(b, m.orderId).side == SELL ==>
                  AllSold(b, fills, m.orderId))
            && (m.msgType == 2 && !Contains(b, m.orderId) ==> fills == [])
            && (m.msgType == 1 || m.msgType > 2 || (m.msgType == 0 && m.side > 1) ==> fills == [])
  {
    hide Submit, BookOk, Bought, Sold;
    if IsValidFeedMessage(m) {
      if m.msgType == ADD {
        SubmitParties(b, TicketOf(m), TypeOf(m.orderType), m.sequence);
      } else if m.msgType == MODIFY && Contains(b, m.orderId) {
        var c := Cancel(b, m.orderId);
        CancelRemoves(b, c, m.orderId);
        var t := Find(b, m.orderId).(price := m.price, qty := m.qty, filledQty := 0);
        SubmitParties(c, t, LIMIT, m.sequence);
        MorePartners(b, c, Submit(c, t, LIMIT, m.sequence).fills, m.orderId);
      }
    }
  }

  // --- The reference matcher -------------------------------------------------------------------

  /** Some order of the vector rests on this side at this price under this id. */
  ghost predicate Lists(flat: R.Flat, side: Side, price: u32, id: u64) {
    exists i ::
      0 <= i < |flat| && flat[i].ticket.side == side && flat[i].ticket.price == price && flat[i].ticket.orderId == id
  }

  ghost predicate VectorBought(flat: R.Flat, fills: seq<Fill>, id: u64) {
    forall f | f in fills :: f.buyOrderId == id && f.qty > 0 && Lists(flat, SELL, f.price, f.sellOrderId)
  }

  ghost predicate VectorSold(flat: R.Flat, fills: seq<Fill>, id: u64) {
    forall f | f in fills :: f.sellOrderId == id && f.qty > 0 && Lists(flat, BUY, f.price, f.buyOrderId)
  }

  lemma ListedBefore(flat: R.Flat, k: nat, q: u32, side: Side, price: u32, id: u64)
    requires k < |flat| && q <= flat[k].ticket.Remaining() && Lists(R.FillAt(flat, k, q), side, price, id)
    ensures Lists(flat, side, price, id)
  {
    var r := R.FillAt(flat, k, q);
    var i :| 0 <= i < |r| && r[i].ticket.side == side && r[i].ticket.price == price && r[i].ticket.orderId == id;
    var j := if |r| == |flat| || i < k then i else i + 1;
    assert flat[j].ticket.orderId == id;
  }

  lemma {:induction false} VectorMatchParties(flat: R.Flat, taker: Ticket, ty: OrderType, ts: u64)
    ensures var fills := R.Match(flat, taker, ty, ts).fills;
            && (taker.side == BUY ==> VectorBought(flat, fills, taker.orderId))
            && (taker.side == SELL ==> VectorSold(flat, fills, taker.orderId))
    decreases taker.Remaining()
  {
    if taker.Remaining() > 0 && R.AnyEligible(flat, taker, ty) {
      var k := R.Best(flat, taker, ty);
      var q := Min(taker.Remaining(), flat[k].ticket.Remaining());
      VectorMatchParties(R.FillAt(flat, k, q), taker.Take(q), ty, ts);
      var next := R.Match(R.FillAt(flat, k, q), taker.Take(q), ty, ts);
      hide R.FillAt, Lists, R.BetterPriceTime;
      forall f | f in next.fills
        ensures Lists(R.FillAt(flat, k, q), SELL, f.price, f.sellOrderId) ==> Lists(flat, SELL, f.price, f.sellOrderId)
        ensures Lists(R.FillAt(flat, k, q), BUY, f.price, f.buyOrderId) ==> Lists(flat, BUY, f.price, f.buyOrderId)
      {
        if Lists(R.FillAt(flat, k, q), SELL, f.price, f.sellOrderId) {
          ListedBefore(flat, k, q, SELL, f.price, f.sellOrderId);
        }
        if Lists(R.FillAt(flat, k, q), BUY, f.price, f.buyOrderId) {
          ListedBefore(flat, k, q, BUY, f.price, f.buyOrderId);
        }
      }
      ListsOne(flat, k);
    }
  }

  lemma ListsOne(flat: R.Flat, k: nat)
    requires k < |flat|
    ensures Lists(flat, flat[k].ticket.side, flat[k].ticket.price, flat[k].ticket.orderId)
  {
  }

  lemma ErasedBefore(flat: R.Flat, id: u64, fills: seq<Fill>, taker: u64)
    ensures VectorBought(R.Erase(flat, id), fills, taker) ==> VectorBought(flat, fills, taker)
    ensures VectorSold(R.Erase(flat, id), fills, taker) ==> VectorSold(flat, fills, taker)
  {
    var r := R.Erase(flat, id);
    var k := R.FindId(flat, id);
    forall side, price, x | Lists(r, side, price, x) ensures Lists(flat, side, price, x) {
      var i :| 0 <= i < |r| && r[i].ticket.side == side && r[i].ticket.price == price && r[i].ticket.orderId == x;
      assert flat[if i < k then i else i + 1].ticket.orderId == x;
    }
  }

  /** The same of the reference matcher's fills. */
  lemma VectorApplyParties(flat: R.Flat, m: FeedMessage)
    requires IsValidFeedMessage(m)
    ensures var fills := R.Apply(flat, m).fills;
            var k := R.FindId(flat, m.orderId);
            && (m.msgType == 0 && m.side == 0 ==> VectorBought(flat, fills, m.orderId))
            && (m.msgType == 0 && m.side == 1 ==> VectorSold(flat, fills, m.orderId))
            && (m.msgType == 2 && k < |flat| && flat[k].ticket.side == BUY ==> VectorBought(flat, fills, m.orderId))
            && (m.msgType == 2 && k < |flat| && flat[k].ticket.side == SELL ==> VectorSold(flat, fills, m.orderId))
            && (m.msgType == 2 && k == |flat| ==> fills == [])
            && (m.msgType == 1 ==> fills == [])
  {
    hide R.Match, VectorBought, VectorSold, R.Erase;
    if m.msgType == ADD {
      VectorMatchParties(flat, TicketOf(m), TypeOf(m.orderType), m.sequence);
    } else if m.msgType == MODIFY {
      var k := R.FindId(flat, m.orderId);
      if k < |flat| {
        var t := flat[k].ticket.(price := m.price, qty := m.qty, filledQty := 0);
        var rest := R.Erase(flat, m.orderId);
        VectorMatchParties(rest, t, LIMIT, m.sequence);
        ErasedBefore(flat, m.orderId, R.Match(rest, t, LIMIT, m.sequence).fills, m.orderId);
      }
    }
  }
}
