/** Where the engine and the reference matcher part ways: exactly when the tie-break by sequence number disagrees with
    arrival order, and exactly when the reference acts on an ADD that the engine refuses. */
module Divergence {
  import opened Protocol
  import opened Ladders
  import opened Refinement
  import opened Capacity
  import R = Reference

  /** Position `h` holds the order that arrived first on its side at its price. */
  ghost predicate Front(flat: R.Flat, h: nat) {
    h < |flat| && forall j | 0 <= j < h :: !InLane(flat[j], flat[h].ticket.side, flat[h].ticket.price)
  }

  /** It also carries the lowest sequence number there. */
  ghost predicate Oldest(flat: R.Flat, h: nat)
    requires h < |flat|
  {
    forall j | 0 <= j < |flat| && InLane(flat[j], flat[h].ticket.side, flat[h].ticket.price) ::
      flat[h].sequence <= flat[j].sequence
  }

  /** The position of the order at the head of the best level. */
  lemma FrontOfLevel(b: Book, flat: R.Flat, side: Side, p: u32) returns (h: nat)
    requires BookOk(b) && Live(flat) && Related(b, flat) && p in b.On(side)
    ensures Front(flat, h) && InLane(flat[h], side, p) && flat[h].ticket == b.On(side)[p][0]
  {
    h := HeadInFlat(b, flat, side, p);
    assert Level(b.On(side), p) == Lane(flat, side, p);
    LaneSplit(flat, h, side, p);
    if j: nat :| j < h && InLane(flat[j], side, p) {
      var before := Lane(flat[..h], side, p);
      LaneMember(flat[..h], side, p, flat[j].ticket);
      assert flat[..h][j] in flat[..h];
      LaneMember(flat[..h], side, p, before[0]);
      assert false;
    }
  }

  /** The scan picks the head of the best level exactly if that order is the oldest there. */
  lemma ScanPicksHeadIff(b: Book, flat: R.Flat, taker: Ticket, ty: OrderType, k: nat, h: nat)
    requires BookOk(b) && Live(flat) && Related(b, flat) && R.Picks(flat, taker, ty, k)
    requires b.On(taker.side.Opposite()) != map[]
    requires Front(flat, h)
    requires InLane(flat[h], taker.side.Opposite(), BestPrice(b.On(taker.side.Opposite()), taker.side))
    ensures R.Eligible(flat[h], taker, ty)
    ensures k == h <==> Oldest(flat, h)
  {
    var opp := taker.side.Opposite();
    var p := BestPrice(b.On(opp), taker.side);
    PriceInLadder(b, flat, k);
    assert R.Eligible(flat[h], taker, ty);
    assert flat[k].ticket.price == p;
    forall j | 0 <= j < |flat| && InLane(flat[j], opp, p) ensures R.Eligible(flat[j], taker, ty) {
    }
  }

  /** The next trade of both matchers is the same exactly if the head of the best level is the oldest order there. */
  lemma NextTradeAgreesIff(b: Book, flat: R.Flat, taker: Ticket, ty: OrderType, ts: u64, h: nat)
    requires BookOk(b) && Live(flat) && Related(b, flat) && CanTrade(b.On(taker.side.Opposite()), taker, ty != MARKET)
    requires Front(flat, h)
    requires InLane(flat[h], taker.side.Opposite(), BestPrice(b.On(taker.side.Opposite()), taker.side))
    ensures var fast := Match(b.On(taker.side.Opposite()), taker, ty != MARKET, ts).fills;
            var slow := R.Match(flat, taker, ty, ts).fills;
            fast != [] && slow != [] && (fast[0] == slow[0] <==> Oldest(flat, h))
  {
    var opp := taker.side.Opposite();
    var l := b.On(opp);
    var p := BestPrice(l, taker.side);
    assert R.Eligible(flat[h], taker, ty);
    var k := R.Best(flat, taker, ty);
    ScanPicksHeadIff(b, flat, taker, ty, k, h);
    var h' := FrontOfLevel(b, flat, opp, p);
    assert h' == h;
    FirstFill(l, taker, ty != MARKET, ts);
    FirstScanFill(flat, taker, ty, ts);
  }

  lemma FirstFill(l: Ladder, taker: Ticket, respectPrice: bool, ts: u64)
    requires WellFormed(l, taker.side.Opposite()) && CanTrade(l, taker, respectPrice)
    ensures var p := BestPrice(l, taker.side);
            var f := Match(l, taker, respectPrice, ts).fills;
            && l[p] != [] && f != []
            && f[0] == FillOf(l[p][0], taker, p, Min(taker.Remaining(), l[p][0].Remaining()), ts)
  {
  }

  lemma FirstScanFill(flat: R.Flat, taker: Ticket, ty: OrderType, ts: u64)
    requires taker.Remaining() > 0 && R.AnyEligible(flat, taker, ty)
    ensures var maker := flat[R.Best(flat, taker, ty)].ticket;
            var f := R.Match(flat, taker, ty, ts).fills;
            f != [] && f[0] == FillOf(maker, taker, maker.price, Min(taker.Remaining(), maker.Remaining()), ts)
  {
  }

  /** The reference ignores a refused ADD, as the engine does, exactly if it can neither trade nor rest. */
  lemma RefusedAddAgreesIff(b: Book, flat: R.Flat, m: FeedMessage)
    requires BookOk(b) && Live(flat) && Related(b, flat) && Refused(b, m)
    ensures Apply(b, m) == Outcome(b, [])
    ensures var slow := R.Apply(flat, m);
            slow.fills == [] && Related(b, slow.book) <==>
            && TypeOf(m.orderType) != LIMIT
            && !CanTrade(b.On(SideOf(m.side).Opposite()), TicketOf(m), TypeOf(m.orderType) != MARKET)
  {
    var t, ty := TicketOf(m), TypeOf(m.orderType);
    EligibleIffCanTrade(b, flat, t, ty);
    if R.AnyEligible(flat, t, ty) {
      FirstScanFill(flat, t, ty, m.sequence);
    } else if ty == LIMIT {
      var added := R.Rested(t, m.sequence);
      LaneConcat(flat, [added], t.side, t.price);
      assert Level(b.On(t.side), t.price) == Lane(flat, t.side, t.price);
    }
  }

  // --- Exactly when they agree from here on ----------------------------------------------------

  ghost predicate AgreeOn(b: Book, flat: R.Flat, feed: seq<FeedMessage>)
    requires BookOk(b)
  {
    Run(b, feed).fills == R.Run(flat, Accepted(b, feed)).fills
  }

  function CancelOf(id: u64): FeedMessage {
    FeedMessage(0, id, 0, 0, 0, CANCEL, 0, 0)
  }

  ghost predicate CancelsFirst(b: Book, id: u64, feed: seq<FeedMessage>)
    requires BookOk(b)
  {
    && Run(b, [CancelOf(id)] + feed) == Run(Cancel(b, id), feed)
    && Accepted(b, [CancelOf(id)] + feed) == [CancelOf(id)] + Accepted(Cancel(b, id), feed)
  }

  /** A cancel in front of a feed. */
  lemma {:induction false} CancelFirst(b: Book, id: u64, feed: seq<FeedMessage>)
    requires BookOk(b) && id != 0
    ensures CancelsFirst(b, id, feed)
  {
    hide CancelsFirst;
    if feed == [] {
      CancelOnly(b, id);
    } else {
      var init, m := feed[..|feed| - 1], feed[|feed| - 1];
      CancelFirst(b, id, init);
      CancelFirstStep(b, id, init, m);
      assert feed == init + [m];
    }
  }

  lemma CancelOnly(b: Book, id: u64)
    requires BookOk(b) && id != 0
    ensures CancelsFirst(b, id, [])
  {
    var c := CancelOf(id);
    assert [c] + [] == [c] && [] + [c] == [c];
    RunStep(b, [], c);
    AcceptedStep(b, [], c);
  }

  lemma CancelFirstStep(b: Book, id: u64, feed: seq<FeedMessage>, m: FeedMessage)
    requires BookOk(b) && CancelsFirst(b, id, feed)
    ensures CancelsFirst(b, id, feed + [m])
  {
    hide Run, Accepted, Cancel, Apply, Refused, WellFormed;
    var c := CancelOf(id);
    var after := Cancel(b, id);
    assert [c] + (feed + [m]) == [c] + feed + [m];
    RunStep(b, [c] + feed, m);
    RunStep(after, feed, m);
    AcceptedStep(b, [c] + feed, m);
    AcceptedStep(after, feed, m);
    assert [c] + (Accepted(after, feed) + [m]) == [c] + Accepted(after, feed) + [m];
  }

  lemma {:induction false} ReferenceCancelFirst(flat: R.Flat, id: u64, feed: seq<FeedMessage>)
    requires id != 0
    ensures R.Run(flat, [CancelOf(id)] + feed) == R.Run(R.Erase(flat, id), feed)
  {
    var c := CancelOf(id);
    if feed == [] {
      assert [c] + [] == [c] && [] + [c] == [c];
      ReferenceStep(flat, [], c);
    } else {
      var init, m := feed[..|feed| - 1], feed[|feed| - 1];
      hide R.Run, R.Apply, R.Erase;
      ReferenceCancelFirst(flat, id, init);
      assert feed == init + [m] && [c] + feed == [c] + init + [m];
      ReferenceStep(flat, [c] + init, m);
      ReferenceStep(R.Erase(flat, id), init, m);
    }
  }

  /** Nothing of the feed can rest, so that it continues any book. */
  ghost predicate NothingRests(feed: seq<FeedMessage>) {
    forall i | 0 <= i < |feed| :: !Rests(feed[i])
  }

  ghost predicate Named(flat: R.Flat) {
    forall i | 0 <= i < |flat| :: flat[i].ticket.orderId != 0
  }

  function TakerAgainst(side: Side, id: u64): FeedMessage {
    FeedMessage(0, id, 0, 0, 1, ADD, if side.BUY? then 1 else 0, 1)
  }

  /** When all resting orders sit at one price and the first is not the oldest, the next taker tells the matchers
      apart. */
  lemma TakerTells(b: Book, flat: R.Flat, side: Side, p: u32, m: FeedMessage)
    requires BookOk(b) && Live(flat) && Related(b, flat) && flat != [] && !Oldest(flat, 0)
    requires forall i | 0 <= i < |flat| :: InLane(flat[i], side, p)
    requires Enters(m) && m.msgType == ADD && !Contains(b, m.orderId) && SideOf(m.side) == side.Opposite()
    requires TypeOf(m.orderType) != MARKET ==> Crosses(TicketOf(m), p)
    ensures Apply(b, m).fills != R.Apply(flat, m).fills
  {
    hide Ladders.Match, R.Match, Live, Related;
    OneLevel(b, flat, side, p);
    assert BestPrice(b.On(side), side.Opposite()) == p;
    NextTradeAgreesIff(b, flat, TicketOf(m), TypeOf(m.orderType), m.sequence, 0);
  }

  function FreshId(x: u64, y: u64): (id: u64)
    ensures id != 0 && id != x && id != y
  {
    if x != 1 && y != 1 then 1 else if x != 2 && y != 2 then 2 else 3
  }

  /** With only two orders left, out of turn, the next MARKET order tells the matchers apart. */
  lemma TwoOutOfTurn(b: Book, flat: R.Flat) returns (taker: FeedMessage)
    requires BookOk(b) && Live(flat) && Related(b, flat) && |flat| == 2
    requires InLane(flat[0], flat[1].ticket.side, flat[1].ticket.price) && flat[1].sequence < flat[0].sequence
    ensures IsValidFeedMessage(taker) && !Rests(taker) && !Refused(b, taker)
    ensures Apply(b, taker).fills != R.Apply(flat, taker).fills
  {
    hide Ladders.Apply, R.Apply, Live, Related, FreshId;
    var side, p := flat[0].ticket.side, flat[0].ticket.price;
    var id := FreshId(flat[0].ticket.orderId, flat[1].ticket.orderId);
    taker := TakerAgainst(side, id);
    ContainsIffHasId(b, flat, id);
    TakerTells(b, flat, side, p, taker);
  }

  lemma OneLevel(b: Book, flat: R.Flat, side: Side, p: u32)
    requires BookOk(b) && Related(b, flat) && flat != [] && forall i | 0 <= i < |flat| :: InLane(flat[i], side, p)
    ensures b.On(side).Keys == {p}
  {
    PriceInLadder(b, flat, 0);
    forall q | q in b.On(side) ensures q == p {
      var k := HeadInFlat(b, flat, side, q);
    }
  }

  /** If two orders at one price are out of turn, cancelling all others and sending a MARKET order makes the matchers
      disagree. */
  lemma {:induction false} Unmask(b: Book, flat: R.Flat, i: nat, j: nat) returns (feed: seq<FeedMessage>)
    requires BookOk(b) && Live(flat) && Related(b, flat) && Named(flat) && i < j < |flat|
    requires InLane(flat[i], flat[j].ticket.side, flat[j].ticket.price) && flat[j].sequence < flat[i].sequence
    ensures NothingRests(feed) && !AgreeOn(b, flat, feed)
    decreases |flat|
  {
    hide Related, Live, AgreeOn, R.Erase, Ladders.Cancel, Ladders.Apply, R.Apply, BookOk, Refused;
    if |flat| == 2 {
      var taker := TwoOutOfTurn(b, flat);
      feed := [taker];
      OneMessage(b, flat, taker);
    } else {
      var k := if i > 0 then 0 else if j > 1 then 1 else 2;
      var id := flat[k].ticket.orderId;
      EraseRefines(b, flat, id);
      EraseOne(flat, k);
      var flat' := R.Erase(flat, id);
      var i', j' := if k < i then i - 1 else i, if k < j then j - 1 else j;
      assert flat'[i'] == flat[i] && flat'[j'] == flat[j];
      var rest := Unmask(Cancel(b, id), flat', i', j');
      feed := [CancelOf(id)] + rest;
      CancelFirstAgrees(b, flat, id, rest);
    }
  }

  lemma OneMessage(b: Book, flat: R.Flat, m: FeedMessage)
    requires BookOk(b) && IsValidFeedMessage(m) && !Refused(b, m) && Apply(b, m).fills != R.Apply(flat, m).fills
    ensures !AgreeOn(b, flat, [m])
  {
    hide Ladders.Apply, R.Apply;
    assert [] + [m] == [m];
    RunStep(b, [], m);
    AcceptedStep(b, [], m);
    ReferenceStep(flat, [], m);
    assert [] + Apply(b, m).fills == Apply(b, m).fills;
    assert [] + R.Apply(flat, m).fills == R.Apply(flat, m).fills;
  }

  /** Erasing the order at `k` shifts the later ones down. */
  lemma EraseOne(flat: R.Flat, k: nat)
    requires Live(flat) && Named(flat) && k < |flat|
    ensures var r := R.Erase(flat, flat[k].ticket.orderId);
            && |r| == |flat| - 1 && Named(r)
            && forall i | 0 <= i < |r| :: r[i] == flat[if i < k then i else i + 1]
  {
    hide R.FindId;
    assert R.FindId(flat, flat[k].ticket.orderId) == k;
    var r := flat[..k] + flat[k + 1..];
    assert r == R.Erase(flat, flat[k].ticket.orderId);
    forall i | 0 <= i < |r| ensures r[i] == flat[if i < k then i else i + 1] {
      assert i >= k ==> r[i] == flat[k + 1..][i - k];
    }
  }

  lemma CancelFirstAgrees(b: Book, flat: R.Flat, id: u64, feed: seq<FeedMessage>)
    requires BookOk(b) && id != 0
    ensures AgreeOn(b, flat, [CancelOf(id)] + feed) <==> AgreeOn(Cancel(b, id), R.Erase(flat, id), feed)
  {
    hide Ladders.Run, R.Run, Accepted;
    CancelFirst(b, id, feed);
    ReferenceCancelFirst(flat, id, Accepted(Cancel(b, id), feed));
  }

  /** From two books that hold the same orders, the matchers agree on every feed that continues in sequence order
      exactly if, at every side and price, the resting orders are themselves in sequence order. */
  lemma AgreeFromHereIff(b: Book, flat: R.Flat)
    requires BookOk(b) && Live(flat) && Related(b, flat) && Named(flat)
    ensures (forall feed | Continues(flat, feed) :: AgreeOn(b, flat, feed)) <==> InTurn(flat)
  {
    if InTurn(flat) {
      forall feed | Continues(flat, feed) ensures AgreeOn(b, flat, feed) {
        RunRefines(b, flat, feed);
      }
    } else {
      var i, j :| 0 <= i < j < |flat| && InLane(flat[i], flat[j].ticket.side, flat[j].ticket.price)
                  && flat[j].sequence < flat[i].sequence;
      var feed := Unmask(b, flat, i, j);
      assert Continues(flat, feed);
      assert !AgreeOn(b, flat, feed);
    }
  }

  // --- A feed on which they differ -------------------------------------------------------------

  /** Both matchers rest a LIMIT order when the other side is empty. */
  lemma BothRest(b: Book, flat: R.Flat, m: FeedMessage)
    requires BookOk(b) && Live(flat) && Related(b, flat)
    requires IsValidFeedMessage(m) && m.msgType == ADD && m.orderType == 0
    requires !Contains(b, m.orderId) && b.On(SideOf(m.side).Opposite()) == map[]
    ensures var t := TicketOf(m);
            && Apply(b, m) == Outcome(b.With(t.side, Rest(b.On(t.side), t)), [])
            && R.Apply(flat, m) == R.Outcome(flat + [R.Rested(t, m.sequence)], [])
            && Related(Apply(b, m).book, R.Apply(flat, m).book)
  {
    var t := TicketOf(m);
    var opp := t.side.Opposite();
    EligibleIffCanTrade(b, flat, t, LIMIT);
    RestRefines(b, flat, R.Rested(t, m.sequence));
    assert b.With(opp, b.On(opp)) == b;
  }

  lemma ReferenceStep(flat: R.Flat, s: seq<FeedMessage>, m: FeedMessage)
    ensures var r := R.Run(flat, s);
            R.Run(flat, s + [m]) == if !IsValidFeedMessage(m) then r
                                    else R.Outcome(R.Apply(r.book, m).book, r.fills + R.Apply(r.book, m).fills)
  {
  }

  lemma AcceptedStep(b: Book, s: seq<FeedMessage>, m: FeedMessage)
    requires BookOk(b)
    ensures Accepted(b, s + [m]) == if Refused(Run(b, s).book, m) then Accepted(b, s) else Accepted(b, s) + [m]
  {
  }

  /** One more message that both matchers rest. */
  lemma RestStep(s: seq<FeedMessage>, m: FeedMessage)
    requires IsValidFeedMessage(m) && m.msgType == ADD && m.orderType == 0
    requires var b, flat := Run(EMPTY_BOOK, s).book, R.Run([], s).book;
             && Live(flat) && Related(b, flat) && !HasId(flat, m.orderId) && b.On(SideOf(m.side).Opposite()) == map[]
    ensures var b, t := Run(EMPTY_BOOK, s).book, TicketOf(m);
            && Run(EMPTY_BOOK, s + [m]) == Outcome(b.With(t.side, Rest(b.On(t.side), t)), Run(EMPTY_BOOK, s).fills)
            && R.Run([], s + [m]) == R.Outcome(R.Run([], s).book + [R.Rested(t, m.sequence)], R.Run([], s).fills)
            && Related(Run(EMPTY_BOOK, s + [m]).book, R.Run([], s + [m]).book)
            && Accepted(EMPTY_BOOK, s + [m]) == Accepted(EMPTY_BOOK, s) + [m]
  {
    var b, flat := Run(EMPTY_BOOK, s).book, R.Run([], s).book;
    ContainsIffHasId(b, flat, m.orderId);
    BothRest(b, flat, m);
    hide Ladders.Apply, R.Apply, Ladders.Run, R.Run, Accepted;
    RunStep(EMPTY_BOOK, s, m);
    ReferenceStep([], s, m);
    AcceptedStep(EMPTY_BOOK, s, m);
  }

  predicate LimitSell(m: FeedMessage, price: u32) {
    IsValidFeedMessage(m) && m.msgType == ADD && m.side == 1 && m.orderType == 0 && m.price == price
  }

  lemma EmptyRuns()
    ensures Run(EMPTY_BOOK, []) == Outcome(EMPTY_BOOK, []) && Accepted(EMPTY_BOOK, []) == []
    ensures R.Run([], []) == R.Outcome([], [])
    ensures Related(EMPTY_BOOK, [])
  {
  }

  lemma FirstSell(m: FeedMessage, price: u32)
    requires LimitSell(m, price)
    ensures var fast, slow := Run(EMPTY_BOOK, [m]), R.Run([], [m]);
            && fast == Outcome(Book(map[], map[price := [TicketOf(m)]]), [])
            && slow == R.Outcome([R.Rested(TicketOf(m), m.sequence)], [])
            && Related(fast.book, slow.book) && Live(slow.book) && Accepted(EMPTY_BOOK, [m]) == [m]
  {
    hide Ladders.Run, R.Run, Accepted, Related;
    EmptyRuns();
    RestStep([], m);
    assert [] + [m] == [m];
    assert [] + [TicketOf(m)] == [TicketOf(m)];
    assert Rest(map[], TicketOf(m)) == map[price := [TicketOf(m)]];
  }

  lemma SecondSell(m: FeedMessage, m': FeedMessage, price: u32)
    requires LimitSell(m, price) && LimitSell(m', price) && m.orderId != m'.orderId
    ensures var fast, slow := Run(EMPTY_BOOK, [m, m']), R.Run([], [m, m']);
            && fast == Outcome(Book(map[], map[price := [TicketOf(m), TicketOf(m')]]), [])
            && slow == R.Outcome([R.Rested(TicketOf(m), m.sequence), R.Rested(TicketOf(m'), m'.sequence)], [])
            && Related(fast.book, slow.book) && Accepted(EMPTY_BOOK, [m, m']) == [m, m']
  {
    hide Ladders.Run, R.Run, Accepted, Related;
    FirstSell(m, price);
    RestStep([m], m');
    assert [m] + [m'] == [m, m'];
    assert [TicketOf(m)] + [TicketOf(m')] == [TicketOf(m), TicketOf(m')];
    assert Rest(map[price := [TicketOf(m)]], TicketOf(m')) == map[price := [TicketOf(m), TicketOf(m')]];
  }

  /** Two SELLs at one price, the second with the lower sequence number, and a BUY that takes one of them: the engine
      fills the first, the reference the second. */
  lemma SwappedFeedDiffers(m: FeedMessage, m': FeedMessage, taker: FeedMessage, price: u32)
    requires LimitSell(m, price) && LimitSell(m', price) && m'.sequence < m.sequence
    requires IsValidFeedMessage(taker) && taker.msgType == ADD && taker.side == 0 && taker.orderType == 0
    requires taker.price >= price
    requires m.orderId != m'.orderId && taker.orderId != m.orderId && taker.orderId != m'.orderId
    ensures Accepted(EMPTY_BOOK, [m, m', taker]) == [m, m', taker]
    ensures Run(EMPTY_BOOK, [m, m', taker]).fills != R.Run([], [m, m', taker]).fills
  {
    hide Ladders.Run, R.Run, Accepted, Ladders.Match, R.Match, Ladders.Apply, R.Apply;
    var s := [m, m'];
    assert s + [taker] == [m, m', taker];
    SecondSell(m, m', price);
    var b, flat := Run(EMPTY_BOOK, s).book, R.Run([], s).book;
    ContainsIffHasId(b, flat, taker.orderId);
    AcceptedStep(EMPTY_BOOK, s, taker);
    RunStep(EMPTY_BOOK, s, taker);
    ReferenceStep([], s, taker);
    TakerTells(b, flat, SELL, price, taker);
    assert [] + Apply(b, taker).fills == Apply(b, taker).fills;
    assert [] + R.Apply(flat, taker).fills == R.Apply(flat, taker).fills;
  }
}
