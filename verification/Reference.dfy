/** The slow oracle: one flat vector of resting orders, scanned for the best opposite order
    (include/matching/ReferenceMatcher.h). */
module Reference {
  import opened Protocol

  datatype Rested = Rested(ticket: Ticket, sequence: u64)

  type Flat = seq<Rested>

  predicate BetterPriceTime(taker: Side, a: Rested, b: Rested) {
    if a.ticket.price != b.ticket.price then
      if taker.BUY? then a.ticket.price < b.ticket.price else a.ticket.price > b.ticket.price
    else a.sequence < b.sequence
  }

  predicate Eligible(r: Rested, taker: Ticket, ty: OrderType) {
    && r.ticket.side != taker.side
    && r.ticket.Remaining() > 0
    && (ty != MARKET ==>
          if taker.side.BUY? then r.ticket.price <= taker.price else r.ticket.price >= taker.price)
  }

  /** Position `k` is eligible, beats every earlier eligible order and is beaten by no later one. */
  ghost predicate Picks(book: Flat, taker: Ticket, ty: OrderType, k: nat) {
    && k < |book| && Eligible(book[k], taker, ty)
    && (forall j | 0 <= j < k && Eligible(book[j], taker, ty) :: BetterPriceTime(taker.side, book[k], book[j]))
    && (forall j | k < j < |book| && Eligible(book[j], taker, ty) :: !BetterPriceTime(taker.side, book[j], book[k]))
  }

  ghost predicate AnyEligible(book: Flat, taker: Ticket, ty: OrderType) {
    exists k :: 0 <= k < |book| && Eligible(book[k], taker, ty)
  }

  lemma {:induction false} SomePick(book: Flat, taker: Ticket, ty: OrderType)
    requires AnyEligible(book, taker, ty)
    ensures exists k: nat :: Picks(book, taker, ty, k)
  {
    var n := |book| - 1;
    var init := book[..n];
    if AnyEligible(init, taker, ty) {
      SomePick(init, taker, ty);
      var k: nat :| Picks(init, taker, ty, k);
      var best := if Eligible(book[n], taker, ty) && BetterPriceTime(taker.side, book[n], book[k]) then n else k;
      assert forall j | 0 <= j < n :: init[j] == book[j];
      assert Picks(book, taker, ty, best);
    } else {
      assert forall j | 0 <= j < n :: init[j] == book[j];
      assert Picks(book, taker, ty, n);
    }
  }

  ghost function Best(book: Flat, taker: Ticket, ty: OrderType): (k: nat)
    requires AnyEligible(book, taker, ty)
    ensures Picks(book, taker, ty, k)
  {
    SomePick(book, taker, ty);
    var k: nat :| Picks(book, taker, ty, k); k
  }

  lemma PickUnique(book: Flat, taker: Ticket, ty: OrderType, k: nat)
    requires Picks(book, taker, ty, k)
    ensures AnyEligible(book, taker, ty) && Best(book, taker, ty) == k
  {
  }

  function FillAt(book: Flat, k: nat, q: u32): (r: Flat)
    requires k < |book| && q <= book[k].ticket.Remaining()
    ensures |r| <= |book|
  {
    var r := book[k].(ticket := book[k].ticket.Take(q));
    if r.ticket.Remaining() == 0 then book[..k] + book[k + 1..] else book[k := r]
  }

  datatype Matched = Matched(book: Flat, taker: Ticket, fills: seq<Fill>)

  ghost function Match(book: Flat, taker: Ticket, ty: OrderType, ts: u64): (r: Matched)
    decreases taker.Remaining()
  {
    if taker.Remaining() == 0 || !AnyEligible(book, taker, ty) then Matched(book, taker, [])
    else
      var k := Best(book, taker, ty);
      var maker := book[k].ticket;
      var q := Min(taker.Remaining(), maker.Remaining());
      var next := Match(FillAt(book, k, q), taker.Take(q), ty, ts);
      next.(fills := [FillOf(maker, taker, maker.price, q, ts)] + next.fills)
  }

  function Prepend(done: seq<Fill>, m: Matched): Matched {
    m.(fills := done + m.fills)
  }

  lemma MatchStep(book: Flat, taker: Ticket, ty: OrderType, ts: u64, k: nat, done: seq<Fill>)
    requires taker.Remaining() > 0 && Picks(book, taker, ty, k)
    ensures var maker := book[k].ticket;
            var q := Min(taker.Remaining(), maker.Remaining());
            Prepend(done, Match(book, taker, ty, ts))
            == Prepend(done + [FillOf(maker, taker, maker.price, q, ts)],
                       Match(FillAt(book, k, q), taker.Take(q), ty, ts))
  {
    PickUnique(book, taker, ty, k);
  }

  lemma MatchStops(book: Flat, taker: Ticket, ty: OrderType, ts: u64)
    requires taker.Remaining() == 0 || !AnyEligible(book, taker, ty)
    ensures Match(book, taker, ty, ts) == Matched(book, taker, [])
  {
  }

  datatype Outcome = Outcome(book: Flat, fills: seq<Fill>)

  ghost function Add(book: Flat, t: Ticket, ty: OrderType, ts: u64): (r: Outcome) {
    var m := Match(book, t, ty, ts);
    Outcome(if m.taker.Remaining() > 0 && ty == LIMIT then m.book + [Rested(m.taker, ts)] else m.book, m.fills)
  }

  /** Position of the first order with this id, or the length of the vector. */
  function FindId(book: Flat, id: u64): (k: nat)
    ensures k <= |book|
    ensures forall j | 0 <= j < k :: book[j].ticket.orderId != id
    ensures k < |book| ==> book[k].ticket.orderId == id
  {
    if book == [] then 0 else if book[0].ticket.orderId == id then 0 else 1 + FindId(book[1..], id)
  }

  function Erase(book: Flat, id: u64): Flat {
    var k := FindId(book, id);
    if k == |book| then book else book[..k] + book[k + 1..]
  }

  ghost function Apply(book: Flat, m: FeedMessage): (r: Outcome)
    requires IsValidFeedMessage(m)
  {
    if m.msgType == ADD then Add(book, TicketOf(m), TypeOf(m.orderType), m.sequence)
    else if m.msgType == CANCEL then Outcome(Erase(book, m.orderId), [])
    else
      var k := FindId(book, m.orderId);
      if k == |book| then Outcome(book, [])
      else
        var erased := book[k].ticket;
        Add(Erase(book, m.orderId), erased.(price := m.price, qty := m.qty, filledQty := 0), LIMIT, m.sequence)
  }

  /** The valid messages of the feed in order, from `book`. */
  ghost function Run(book: Flat, feed: seq<FeedMessage>): (r: Outcome) {
    if feed == [] then Outcome(book, [])
    else
      var before := Run(book, feed[..|feed| - 1]);
      var m := feed[|feed| - 1];
      if !IsValidFeedMessage(m) then before
      else
        var last := Apply(before.book, m);
        Outcome(last.book, before.fills + last.fills)
  }

  class ReferenceMatcher {
    var book: Flat
    var fills: seq<Fill>

    constructor ()
      ensures book == [] && fills == []
    {
      book, fills := [], [];
    }

    /** The scan: the first best eligible order, or `|book|` when there is none. */
    method BestOpposite(taker: Ticket, ty: OrderType) returns (best: nat)
      ensures best == |book| ==> !AnyEligible(book, taker, ty)
      ensures best != |book| ==> Picks(book, taker, ty, best)
    {
      best := |book|;
      for i := 0 to |book|
        invariant best == |book| ==> forall j | 0 <= j < i :: !Eligible(book[j], taker, ty)
        invariant best != |book| ==> best < i && Picks(book[..i], taker, ty, best)
      {
        assert best != |book| ==> book[..i][best] == book[best];
        if Eligible(book[i], taker, ty) && (best == |book| || BetterPriceTime(taker.side, book[i], book[best])) {
          best := i;
        }
        assert forall j | 0 <= j < i :: book[..i + 1][j] == book[..i][j];
      }
      assert book[..|book|] == book;
    }

    method MatchAll(incoming: Ticket, ty: OrderType, ts: u64) returns (taker: Ticket)
      modifies this
      ensures var m := Match(old(book), incoming, ty, ts);
              book == m.book && taker == m.taker && fills == old(fills) + m.fills
    {
      hide Match, AnyEligible, BetterPriceTime, FillAt;
      taker := incoming;
      ghost var want := Match(book, incoming, ty, ts);
      ghost var done: seq<Fill> := [];
      while taker.Remaining() > 0
        invariant fills == old(fills) + done
        invariant want == Prepend(done, Match(book, taker, ty, ts))
        decreases taker.Remaining()
      {
        var best := BestOpposite(taker, ty);
        if best == |book| { break; }
        var maker := book[best].ticket;
        var q := Min(taker.Remaining(), maker.Remaining());
        var fill := FillOf(maker, taker, maker.price, q, ts);
        MatchStep(book, taker, ty, ts, best, done);
        fills, done := fills + [fill], done + [fill];
        book, taker := FillAt(book, best, q), taker.Take(q);
      }
      MatchStops(book, taker, ty, ts);
    }

    method AddOrder(t: Ticket, ty: OrderType, ts: u64)
      modifies this
      ensures var r := Add(old(book), t, ty, ts); book == r.book && fills == old(fills) + r.fills
    {
      var taker := MatchAll(t, ty, ts);
      if taker.Remaining() > 0 && ty == LIMIT {
        book := book + [Rested(taker, ts)];
      }
    }

    method ApplyMessage(m: FeedMessage)
      requires IsValidFeedMessage(m)
      modifies this
      ensures var r := Apply(old(book), m); book == r.book && fills == old(fills) + r.fills
    {
      if m.msgType == ADD {
        AddOrder(TicketOf(m), TypeOf(m.orderType), m.sequence);
      } else if m.msgType == CANCEL {
        book := Erase(book, m.orderId);
      } else {
        var k := FindId(book, m.orderId);
        if k != |book| {
          var erased := book[k].ticket;
          book := Erase(book, m.orderId);
          AddOrder(erased.(price := m.price, qty := m.qty, filledQty := 0), LIMIT, m.sequence);
        }
      }
    }

    method RunFeed(feed: seq<FeedMessage>) returns (out: seq<Fill>)
      modifies this
      ensures out == fills == Run([], feed).fills && book == Run([], feed).book
    {
      book, fills := [], [];
      for i := 0 to |feed|
        invariant var r := Run([], feed[..i]); book == r.book && fills == r.fills
      {
        assert feed[..i + 1][..i] == feed[..i];
        if IsValidFeedMessage(feed[i]) {
          ApplyMessage(feed[i]);
        }
      }
      assert feed[..|feed|] == feed;
      out := fills;
    }
  }
}
