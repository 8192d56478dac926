/** The price-ladder engine refines the flat reference matcher on every feed. */
module Refinement {
  import opened Protocol
  import opened Ladders
  import R = Reference

  predicate InLane(r: R.Rested, side: Side, p: u32) {
    r.ticket.side == side && r.ticket.price == p
  }

  /** The orders of one side and price, in vector order. */
  function Lane(flat: R.Flat, side: Side, p: u32): seq<Ticket> {
    if flat == [] then []
    else (if InLane(flat[0], side, p) then [flat[0].ticket] else []) + Lane(flat[1..], side, p)
  }

  /** Both books hold the same orders, in the same order at every side and price. */
  ghost predicate Related(b: Book, flat: R.Flat) {
    forall side, p :: Level(b.On(side), p) == Lane(flat, side, p)
  }

  /** At every side and price, sequence numbers follow arrival order. */
  ghost predicate InTurn(flat: R.Flat) {
    forall i, j | 0 <= i < j < |flat| && InLane(flat[i], flat[j].ticket.side, flat[j].ticket.price) ::
      flat[i].sequence <= flat[j].sequence
  }

  /** Orders are live and have distinct ids. */
  ghost predicate Live(flat: R.Flat) {
    && (forall i | 0 <= i < |flat| :: flat[i].ticket.filledQty < flat[i].ticket.qty && flat[i].ticket.price != 0)
    && (forall i, j | 0 <= i < j < |flat| :: flat[i].ticket.orderId != flat[j].ticket.orderId)
  }

  ghost predicate FlatOk(flat: R.Flat) {
    Live(flat) && InTurn(flat)
  }

  ghost predicate Bounded(flat: R.Flat, s: u64) {
    forall r | r in flat :: r.sequence <= s
  }

  lemma {:induction false} LaneConcat(a: R.Flat, b: R.Flat, side: Side, p: u32)
    ensures Lane(a + b, side, p) == Lane(a, side, p) + Lane(b, side, p)
  {
    if a == [] {
      assert a + b == b;
    } else {
      assert (a + b)[1..] == a[1..] + b;
      LaneConcat(a[1..], b, side, p);
      var head := if InLane(a[0], side, p) then [a[0].ticket] else [];
      assert head + (Lane(a[1..], side, p) + Lane(b, side, p)) == head + Lane(a[1..], side, p) + Lane(b, side, p);
    }
  }

  lemma LaneSplit(flat: R.Flat, k: nat, side: Side, p: u32)
    requires k < |flat|
    ensures Lane(flat, side, p) == Lane(flat[..k], side, p) + Lane([flat[k]], side, p) + Lane(flat[k + 1..], side, p)
  {
    assert flat == flat[..k] + ([flat[k]] + flat[k + 1..]);
    LaneConcat(flat[..k], [flat[k]] + flat[k + 1..], side, p);
    LaneConcat([flat[k]], flat[k + 1..], side, p);
  }

  lemma {:induction false} LaneMember(flat: R.Flat, side: Side, p: u32, t: Ticket)
    ensures t in Lane(flat, side, p) <==> t.side == side && t.price == p && exists r :: r in flat && r.ticket == t
  {
    if flat != [] {
      LaneMember(flat[1..], side, p, t);
      assert flat == [flat[0]] + flat[1..];
    }
  }

  lemma {:induction false} LaneEmpty(flat: R.Flat, side: Side, p: u32)
    requires forall r | r in flat :: !InLane(r, side, p)
    ensures Lane(flat, side, p) == []
  {
    if flat != [] {
      LaneEmpty(flat[1..], side, p);
    }
  }

  /** One order in the flat book is one order in the ladder. */
  lemma HoldsIffInFlat(b: Book, flat: R.Flat, t: Ticket)
    requires Related(b, flat)
    ensures Holds(b, t) <==> exists r :: r in flat && r.ticket == t
  {
    LaneMember(flat, t.side, t.price, t);
    assert Level(b.On(t.side), t.price) == Lane(flat, t.side, t.price);
  }

  lemma HeadInFlat(b: Book, flat: R.Flat, side: Side, p: u32) returns (k: nat)
    requires BookOk(b) && Related(b, flat) && p in b.On(side)
    ensures k < |flat| && InLane(flat[k], side, p)
    ensures b.On(side)[p] != [] && flat[k].ticket == b.On(side)[p][0]
  {
    var s := b.On(side)[p];
    assert LevelOk(s, side, p) && s[0] in s && Level(b.On(side), p) == s;
    assert Holds(b, s[0]);
    HoldsIffInFlat(b, flat, s[0]);
    var r :| r in flat && r.ticket == s[0];
    k :| 0 <= k < |flat| && flat[k] == r;
  }

  lemma PriceInLadder(b: Book, flat: R.Flat, k: nat)
    requires Related(b, flat) && k < |flat|
    ensures flat[k].ticket.price in b.On(flat[k].ticket.side)
  {
    assert flat[k] in flat;
    HoldsIffInFlat(b, flat, flat[k].ticket);
  }

  /** The vector scan finds something exactly when the best level may trade. */
  lemma EligibleIffCanTrade(b: Book, flat: R.Flat, taker: Ticket, ty: OrderType)
    requires BookOk(b) && Live(flat) && Related(b, flat) && !taker.Filled()
    ensures R.AnyEligible(flat, taker, ty) <==> CanTrade(b.On(taker.side.Opposite()), taker, ty != MARKET)
  {
    var opp := taker.side.Opposite();
    if R.AnyEligible(flat, taker, ty) {
      var k :| 0 <= k < |flat| && R.Eligible(flat[k], taker, ty);
      PriceInLadder(b, flat, k);
    }
    if CanTrade(b.On(opp), taker, ty != MARKET) {
      var k := HeadInFlat(b, flat, opp, BestPrice(b.On(opp), taker.side));
      assert R.Eligible(flat[k], taker, ty);
    }
  }

  /** The scan picks the order at the head of the best level: nothing before it shares its lane. */
  lemma PickIsHead(b: Book, flat: R.Flat, taker: Ticket, ty: OrderType, k: nat)
    requires BookOk(b) && FlatOk(flat) && Related(b, flat)
    requires R.Picks(flat, taker, ty, k)
    ensures var l := b.On(taker.side.Opposite());
            l != map[] && flat[k].ticket.price == BestPrice(l, taker.side)
    ensures Lane(flat[..k], taker.side.Opposite(), flat[k].ticket.price) == []
  {
    var opp := taker.side.Opposite();
    PriceInLadder(b, flat, k);
    var j := HeadInFlat(b, flat, opp, BestPrice(b.On(opp), taker.side));
    assert R.Eligible(flat[j], taker, ty);
    NoneBefore(flat, taker, ty, k);
  }

  lemma NoneBefore(flat: R.Flat, taker: Ticket, ty: OrderType, k: nat)
    requires FlatOk(flat) && R.Picks(flat, taker, ty, k)
    ensures Lane(flat[..k], taker.side.Opposite(), flat[k].ticket.price) == []
  {
    var opp, p := taker.side.Opposite(), flat[k].ticket.price;
    forall r | r in flat[..k] ensures !InLane(r, opp, p) {
      var j :| 0 <= j < k && flat[..k][j] == r;
      assert InLane(r, opp, p) ==> R.Eligible(flat[j], taker, ty);
    }
    LaneEmpty(flat[..k], opp, p);
  }

  lemma FillAtOk(flat: R.Flat, k: nat, q: u32)
    requires FlatOk(flat) && k < |flat| && q <= flat[k].ticket.Remaining()
    ensures FlatOk(R.FillAt(flat, k, q))
    ensures forall s | Bounded(flat, s) :: Bounded(R.FillAt(flat, k, q), s)
    ensures forall id | !HasId(flat, id) :: !HasId(R.FillAt(flat, k, q), id)
  {
    var r := flat[k].(ticket := flat[k].ticket.Take(q));
    if r.ticket.Remaining() == 0 {
      DropOk(flat, k);
    } else {
      ReplaceOk(flat, k, r);
    }
  }

  ghost predicate HasId(flat: R.Flat, id: u64) {
    exists i :: 0 <= i < |flat| && flat[i].ticket.orderId == id
  }

  lemma DropOk(flat: R.Flat, k: nat)
    requires Live(flat) && k < |flat|
    ensures var r := flat[..k] + flat[k + 1..];
            && Live(r) && (InTurn(flat) ==> InTurn(r))
            && (forall s | Bounded(flat, s) :: Bounded(r, s))
            && (forall id | !HasId(flat, id) :: !HasId(r, id))
  {
    var r := flat[..k] + flat[k + 1..];
    assert forall i | 0 <= i < |r| :: r[i] == flat[if i < k then i else i + 1];
  }

  lemma ReplaceOk(flat: R.Flat, k: nat, x: R.Rested)
    requires FlatOk(flat) && k < |flat| && x.ticket.filledQty < x.ticket.qty
    requires x == flat[k].(ticket := flat[k].ticket.(filledQty := x.ticket.filledQty))
    ensures FlatOk(flat[k := x])
    ensures forall s | Bounded(flat, s) :: Bounded(flat[k := x], s)
    ensures forall id | !HasId(flat, id) :: !HasId(flat[k := x], id)
  {
    var r := flat[k := x];
    assert forall i | 0 <= i < |r| ::
        && r[i].sequence == flat[i].sequence && r[i].ticket.orderId == flat[i].ticket.orderId
        && r[i].ticket.side == flat[i].ticket.side && r[i].ticket.price == flat[i].ticket.price;
    assert flat[k] in flat;
  }

  lemma FillAtLane(flat: R.Flat, k: nat, q: u32, side: Side, p: u32)
    requires k < |flat| && q <= flat[k].ticket.Remaining()
    requires InLane(flat[k], side, p) ==> Lane(flat[..k], side, p) == []
    ensures !InLane(flat[k], side, p) ==> Lane(R.FillAt(flat, k, q), side, p) == Lane(flat, side, p)
    ensures InLane(flat[k], side, p) ==>
              && Lane(flat, side, p) != [] && Lane(flat, side, p)[0] == flat[k].ticket
              && Lane(R.FillAt(flat, k, q), side, p) == Residue(flat[k].ticket, q) + Lane(flat, side, p)[1..]
  {
    var flat' := R.FillAt(flat, k, q);
    assert Lane([flat[k]], side, p) == if InLane(flat[k], side, p) then [flat[k].ticket] else [];
    assert |flat'| == |flat| ==>
           Lane([flat'[k]], side, p) == if InLane(flat[k], side, p) then [flat'[k].ticket] else [];
    hide Lane;
    LaneSplit(flat, k, side, p);
    if |flat'| == |flat| {
      LaneSplit(flat', k, side, p);
      assert flat'[..k] == flat[..k] && flat'[k + 1..] == flat[k + 1..];
    } else {
      LaneConcat(flat[..k], flat[k + 1..], side, p);
    }
  }

  /** Filling the picked order and consuming the best level are the same change. */
  lemma ConsumeIsFillAt(b: Book, flat: R.Flat, taker: Ticket, ty: OrderType, k: nat, q: u32)
    requires BookOk(b) && FlatOk(flat) && Related(b, flat) && !taker.Filled()
    requires R.Picks(flat, taker, ty, k) && 0 < q <= flat[k].ticket.Remaining()
    ensures var opp := taker.side.Opposite();
            var l := b.On(opp);
            && l != map[]
            && var p := BestPrice(l, taker.side);
               && l[p] != [] && l[p][0] == flat[k].ticket && flat[k].ticket.price == p
               && Related(b.With(opp, Consume(l, p, q)), R.FillAt(flat, k, q))
  {
    var opp := taker.side.Opposite();
    var l := b.On(opp);
    PickIsHead(b, flat, taker, ty, k);
    var p := BestPrice(l, taker.side);
    FillAtLane(flat, k, q, opp, p);
    assert Level(l, p) == Lane(flat, opp, p);
    var flat' := R.FillAt(flat, k, q);
    var b' := b.With(opp, Consume(l, p, q));
    forall side, x ensures Level(b'.On(side), x) == Lane(flat', side, x) {
      FillAtLane(flat, k, q, side, x);
      ConsumeLevel(l, p, q, x);
      assert Level(b.On(side), x) == Lane(flat, side, x);
    }
  }

  /** The two match loops make the same fills and keep the books related. */
  lemma {:induction false} MatchRefines(b: Book, flat: R.Flat, taker: Ticket, ty: OrderType, ts: u64)
    requires BookOk(b) && FlatOk(flat) && Related(b, flat)
    ensures var opp := taker.side.Opposite();
            var fast := Match(b.On(opp), taker, ty != MARKET, ts);
            var slow := R.Match(flat, taker, ty, ts);
            && fast.fills == slow.fills && fast.taker == slow.taker
            && Related(b.With(opp, fast.ladder), slow.book) && FlatOk(slow.book)
            && (forall s | Bounded(flat, s) :: Bounded(slow.book, s))
            && (forall id | !HasId(flat, id) :: !HasId(slow.book, id))
    decreases taker.Remaining()
  {
    hide Related, Live, InTurn, Bounded, HasId, WellFormed, R.FillAt, R.AnyEligible, R.BetterPriceTime;
    var opp := taker.side.Opposite();
    var l := b.On(opp);
    assert b.With(opp, l) == b;
    if !taker.Filled() {
      EligibleIffCanTrade(b, flat, taker, ty);
      if R.AnyEligible(flat, taker, ty) {
        var k := R.Best(flat, taker, ty);
        var q := Min(taker.Remaining(), flat[k].ticket.Remaining());
        ConsumeIsFillAt(b, flat, taker, ty, k, q);
        var p := BestPrice(l, taker.side);
        ConsumeWellFormed(l, opp, p, q);
        FillAtOk(flat, k, q);
        var b' := b.With(opp, Consume(l, p, q));
        MatchRefines(b', R.FillAt(flat, k, q), taker.Take(q), ty, ts);
        assert b'.With(opp, Match(b'.On(opp), taker.Take(q), ty != MARKET, ts).ladder)
            == b.With(opp, Match(l, taker, ty != MARKET, ts).ladder);
      }
    }
  }

  lemma ContainsIffHasId(b: Book, flat: R.Flat, id: u64)
    requires Related(b, flat)
    ensures Contains(b, id) <==> HasId(flat, id)
    ensures HasId(flat, id) <==> R.FindId(flat, id) < |flat|
  {
    if Contains(b, id) {
      var t :| Holds(b, t) && t.orderId == id;
      HoldsIffInFlat(b, flat, t);
      var r :| r in flat && r.ticket == t;
      var i :| 0 <= i < |flat| && flat[i] == r;
    }
    if HasId(flat, id) {
      var i :| 0 <= i < |flat| && flat[i].ticket.orderId == id;
      HoldsIffInFlat(b, flat, flat[i].ticket);
      assert flat[i] in flat;
    }
  }

  /** Submitting a new id: same fills, same books. */
  lemma SubmitRefines(b: Book, flat: R.Flat, t: Ticket, ty: OrderType, ts: u64)
    requires BookOk(b) && FlatOk(flat) && Related(b, flat) && (ty == LIMIT ==> Bounded(flat, ts))
    requires !Contains(b, t.orderId) && (ty != MARKET ==> t.price != 0)
    ensures var fast := Submit(b, t, ty, ts);
            var slow := R.Add(flat, t, ty, ts);
            && fast.fills == slow.fills && Related(fast.book, slow.book) && FlatOk(slow.book)
            && (forall s | Bounded(flat, s) && (ty == LIMIT ==> ts <= s) :: Bounded(slow.book, s))
  {
    var opp := t.side.Opposite();
    MatchRefines(b, flat, t, ty, ts);
    ContainsIffHasId(b, flat, t.orderId);
    var fast := Match(b.On(opp), t, ty != MARKET, ts);
    var slow := R.Match(flat, t, ty, ts);
    var b' := b.With(opp, fast.ladder);
    if ty == LIMIT && !fast.taker.Filled() {
      var added := R.Rested(fast.taker, ts);
      RestRefines(b', slow.book, added);
      AppendOk(slow.book, added);
    }
  }

  lemma RestRefines(b: Book, flat: R.Flat, r: R.Rested)
    requires Related(b, flat)
    ensures Related(b.With(r.ticket.side, Rest(b.On(r.ticket.side), r.ticket)), flat + [r])
  {
    var b' := b.With(r.ticket.side, Rest(b.On(r.ticket.side), r.ticket));
    forall side, p ensures Level(b'.On(side), p) == Lane(flat + [r], side, p) {
      LaneConcat(flat, [r], side, p);
      assert Level(b.On(side), p) == Lane(flat, side, p);
    }
  }

  lemma AppendOk(flat: R.Flat, r: R.Rested)
    requires FlatOk(flat) && Bounded(flat, r.sequence) && !HasId(flat, r.ticket.orderId)
    requires r.ticket.filledQty < r.ticket.qty && r.ticket.price != 0
    ensures FlatOk(flat + [r]) && forall s | Bounded(flat, s) && r.sequence <= s :: Bounded(flat + [r], s)
  {
  }

  /** Erasing the first match of an id removes that id from every level. */
  lemma EraseRefines(b: Book, flat: R.Flat, id: u64)
    requires BookOk(b) && Live(flat) && Related(b, flat)
    ensures Related(Cancel(b, id), R.Erase(flat, id)) && Live(R.Erase(flat, id))
    ensures InTurn(flat) ==> InTurn(R.Erase(flat, id))
    ensures forall s | Bounded(flat, s) :: Bounded(R.Erase(flat, id), s)
  {
    var b' := Cancel(b, id);
    forall side, p ensures Level(b'.On(side), p) == Lane(R.Erase(flat, id), side, p) {
      assert Level(b'.On(side), p) == Without(Level(b.On(side), p), id);
      assert Level(b.On(side), p) == Lane(flat, side, p);
      EraseLane(flat, id, side, p);
    }
    EraseOk(flat, id);
  }

  lemma EraseOk(flat: R.Flat, id: u64)
    requires Live(flat)
    ensures Live(R.Erase(flat, id)) && (InTurn(flat) ==> InTurn(R.Erase(flat, id)))
    ensures forall s | Bounded(flat, s) :: Bounded(R.Erase(flat, id), s)
  {
    var k := R.FindId(flat, id);
    if k < |flat| {
      DropOk(flat, k);
    }
  }

  lemma EraseLane(flat: R.Flat, id: u64, side: Side, p: u32)
    requires Live(flat)
    ensures Lane(R.Erase(flat, id), side, p) == Without(Lane(flat, side, p), id)
  {
    var k := R.FindId(flat, id);
    if k == |flat| {
      NoIdInLane(flat, id, side, p);
      WithoutAbsent(Lane(flat, side, p), id);
    } else {
      EraseAt(flat, k, id, side, p);
    }
  }

  lemma EraseAt(flat: R.Flat, k: nat, id: u64, side: Side, p: u32)
    requires k < |flat| && flat[k].ticket.orderId == id
    requires forall i | 0 <= i < |flat| && i != k :: flat[i].ticket.orderId != id
    ensures Lane(flat[..k] + flat[k + 1..], side, p) == Without(Lane(flat, side, p), id)
  {
    var a, c := flat[..k], flat[k + 1..];
    LaneSplit(flat, k, side, p);
    LaneConcat(a, c, side, p);
    NoIdInLane(a, id, side, p);
    NoIdInLane(c, id, side, p);
    var mid := if InLane(flat[k], side, p) then [flat[k].ticket] else [];
    assert Lane([flat[k]], side, p) == mid;
    WithoutMiddle(Lane(a, side, p), mid, Lane(c, side, p), id);
  }

  lemma NoIdInLane(flat: R.Flat, id: u64, side: Side, p: u32)
    requires forall i | 0 <= i < |flat| :: flat[i].ticket.orderId != id
    ensures forall t | t in Lane(flat, side, p) :: t.orderId != id
  {
  }

  /** The id map and the vector search find the same order. */
  lemma FindIsFindId(b: Book, flat: R.Flat, id: u64)
    requires FlatOk(flat) && Related(b, flat) && Contains(b, id)
    ensures R.FindId(flat, id) < |flat| && Find(b, id) == flat[R.FindId(flat, id)].ticket
  {
    hide R.FindId, Lane;
    ContainsIffHasId(b, flat, id);
    var t, k := Find(b, id), R.FindId(flat, id);
    HoldsIffInFlat(b, flat, t);
    var r :| r in flat && r.ticket == t;
    var i :| 0 <= i < |flat| && flat[i] == r;
    assert i == k by {
      assert flat[i].ticket.orderId == flat[k].ticket.orderId;
    }
  }

  /** An ADD that the engine refuses because its id is already resting. */
  ghost predicate Refused(b: Book, m: FeedMessage) {
    IsValidFeedMessage(m) && m.msgType == ADD && Contains(b, m.orderId)
  }

  lemma ApplyRefines(b: Book, flat: R.Flat, m: FeedMessage)
    requires BookOk(b) && FlatOk(flat) && Related(b, flat)
    requires IsValidFeedMessage(m) && !Refused(b, m) && (Rests(m) ==> Bounded(flat, m.sequence))
    ensures var fast := Apply(b, m);
            var slow := R.Apply(flat, m);
            && fast.fills == slow.fills && Related(fast.book, slow.book) && FlatOk(slow.book)
            && (forall s | Bounded(flat, s) && (Rests(m) ==> m.sequence <= s) :: Bounded(slow.book, s))
  {
    if m.msgType == ADD {
      SubmitRefines(b, flat, TicketOf(m), TypeOf(m.orderType), m.sequence);
    } else if m.msgType == CANCEL {
      EraseRefines(b, flat, m.orderId);
    } else {
      ContainsIffHasId(b, flat, m.orderId);
      if Contains(b, m.orderId) {
        FindIsFindId(b, flat, m.orderId);
        EraseRefines(b, flat, m.orderId);
        var t := Find(b, m.orderId).(price := m.price, qty := m.qty, filledQty := 0);
        SubmitRefines(Cancel(b, m.orderId), R.Erase(flat, m.orderId), t, LIMIT, m.sequence);
      }
    }
  }

  /** The feed without the ADDs that reach the engine while their id is resting. */
  ghost function Accepted(b: Book, feed: seq<FeedMessage>): (r: seq<FeedMessage>)
    requires BookOk(b)
  {
    if feed == [] then []
    else
      var init, m := feed[..|feed| - 1], feed[|feed| - 1];
      if Refused(Run(b, init).book, m) then Accepted(b, init) else Accepted(b, init) + [m]
  }

  /** Messages that can rest an order carry nondecreasing sequence numbers. */
  ghost predicate Ordered(feed: seq<FeedMessage>) {
    forall i, j | 0 <= i < j < |feed| && Rests(feed[i]) && Rests(feed[j]) :: feed[i].sequence <= feed[j].sequence
  }

  /** `s` is at least every sequence number that has entered, or may enter, the book. */
  ghost predicate Below(flat: R.Flat, feed: seq<FeedMessage>, s: u64) {
    Bounded(flat, s) && forall m | m in feed && Rests(m) :: m.sequence <= s
  }

  /** The feed is ordered and comes after everything that rests. */
  ghost predicate Continues(flat: R.Flat, feed: seq<FeedMessage>) {
    Ordered(feed) && forall m | m in feed && Rests(m) :: Bounded(flat, m.sequence)
  }

  lemma ContinuesInit(flat: R.Flat, init: seq<FeedMessage>, m: FeedMessage)
    requires Continues(flat, init + [m])
    ensures Continues(flat, init) && (Rests(m) ==> Below(flat, init, m.sequence))
  {
    var feed := init + [m];
    assert m == feed[|init|] && m in feed;
    forall i | 0 <= i < |init| ensures feed[i] == init[i] && init[i] in feed {
    }
  }

  lemma {:induction false} RunRefines(b: Book, flat: R.Flat, feed: seq<FeedMessage>)
    requires BookOk(b) && FlatOk(flat) && Related(b, flat) && Continues(flat, feed)
    ensures var fast := Run(b, feed);
            var slow := R.Run(flat, Accepted(b, feed));
            && fast.fills == slow.fills && Related(fast.book, slow.book) && FlatOk(slow.book)
            && (forall s | Below(flat, feed, s) :: Bounded(slow.book, s))
  {
    if feed != [] {
      var n := |feed| - 1;
      var init, m := feed[..n], feed[n];
      assert feed == init + [m];
      ContinuesInit(flat, init, m);
      RunRefines(b, flat, init);
      assert forall s | Below(flat, feed, s) :: Below(flat, init, s);
      var b', flat' := Run(b, init).book, R.Run(flat, Accepted(b, init)).book;
      if IsValidFeedMessage(m) && !Refused(b', m) {
        ApplyRefines(b', flat', m);
        assert (Accepted(b, init) + [m])[..|Accepted(b, init)|] == Accepted(b, init);
        assert m in feed;
      } else if !IsValidFeedMessage(m) {
        assert (Accepted(b, init) + [m])[..|Accepted(b, init)|] == Accepted(b, init);
      }
    }
  }

  /** For every feed whose resting messages are ordered, the fast engine makes exactly the fills of the reference
      matcher on the accepted messages, and both end with the same orders in the same order at every price. */
  lemma EngineRefinesReference(feed: seq<FeedMessage>)
    requires Ordered(feed)
    ensures Run(EMPTY_BOOK, feed).fills == R.Run([], Accepted(EMPTY_BOOK, feed)).fills
    ensures Related(Run(EMPTY_BOOK, feed).book, R.Run([], Accepted(EMPTY_BOOK, feed)).book)
  {
    RunRefines(EMPTY_BOOK, [], feed);
  }
}
