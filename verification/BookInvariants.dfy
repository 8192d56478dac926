/** What every message keeps: the book is never crossed, ids are unique, and quantity is conserved per side
    (src/MatchingEngine.cpp, src/ReplayEngine.cpp). */
module BookInvariants {
  import opened Protocol
  import opened Ladders
  import opened Sweep

  // ---- never crossed ----

  ghost predicate Uncrossed(b: Book) {
    forall p, q | p in b.bids && q in b.asks :: p < q
  }

  lemma {:induction false} MatchKeys(l: Ladder, taker: Ticket, respectPrice: bool, ts: u64)
    requires WellFormed(l, taker.side.Opposite())
    ensures Match(l, taker, respectPrice, ts).ladder.Keys <= l.Keys
    decreases taker.Remaining()
  {
    if CanTrade(l, taker, respectPrice) {
      var p := BestPrice(l, taker.side);
      assert LevelOk(l[p], taker.side.Opposite(), p) && l[p][0] in l[p];
      var x := Min(taker.Remaining(), l[p][0].Remaining());
      ConsumeWellFormed(l, taker.side.Opposite(), p, x);
      MatchKeys(Consume(l, p, x), taker.Take(x), respectPrice, ts);
    }
  }

  lemma SubmitUncrossed(b: Book, t: Ticket, ty: OrderType, ts: u64)
    requires BookOk(b) && Uncrossed(b) && (ty != MARKET ==> t.price != 0)
    ensures Uncrossed(Submit(b, t, ty, ts).book)
  {
    hide WellFormed, Match, Contains, Uncrossed;
    if !Contains(b, t.orderId) {
      var l := b.On(t.side.Opposite());
      MatchKeys(l, t, ty != MARKET, ts);
      MatchStopsAtBest(l, t, ty != MARKET, ts);
      var m := Match(l, t, ty != MARKET, ts);
      FewerUncrossed(b, t.side.Opposite(), m.ladder);
      if ty == LIMIT && !m.taker.Filled() {
        RestUncrossed(b.With(t.side.Opposite(), m.ladder), m.taker);
      }
    }
  }

  lemma FewerUncrossed(b: Book, side: Side, l: Ladder)
    requires Uncrossed(b) && l.Keys <= b.On(side).Keys
    ensures Uncrossed(b.With(side, l))
  {
  }

  lemma RestUncrossed(b: Book, t: Ticket)
    requires Uncrossed(b) && forall p | p in b.On(t.side.Opposite()) :: !Crosses(t, p)
    ensures Uncrossed(b.With(t.side, Rest(b.On(t.side), t)))
  {
    var r := b.With(t.side, Rest(b.On(t.side), t));
    forall p, q | p in r.bids && q in r.asks ensures p < q {
      assert t.side.BUY? ==> q in b.On(t.side.Opposite());
      assert t.side.SELL? ==> p in b.On(t.side.Opposite());
    }
  }

  /** Every message keeps the best bid strictly below the best ask. */
  lemma ApplyUncrossed(b: Book, m: FeedMessage)
    requires BookOk(b) && Uncrossed(b)
    ensures Uncrossed(Apply(b, m).book)
  {
    if IsValidFeedMessage(m) {
      if m.msgType == ADD {
        SubmitUncrossed(b, TicketOf(m), TypeOf(m.orderType), m.sequence);
      } else if m.msgType == MODIFY && Contains(b, m.orderId) {
        var t := Find(b, m.orderId).(price := m.price, qty := m.qty, filledQty := 0);
        SubmitUncrossed(Cancel(b, m.orderId), t, LIMIT, m.sequence);
      }
    }
  }

  // ---- unique ids ----

  ghost predicate IdsDistinct(s: seq<Ticket>) {
    forall i, j | 0 <= i < j < |s| :: s[i].orderId != s[j].orderId
  }

  /** No id rests twice, in one level or in two. */
  ghost predicate Distinct(b: Book) {
    && (forall side, p :: IdsDistinct(Level(b.On(side), p)))
    && (forall t, u | Holds(b, t) && Holds(b, u) && t.orderId == u.orderId :: t.side == u.side && t.price == u.price)
  }

  /** Ticket `i` of `r`, counted against the end of `s`, has at most its filled quantity changed. */
  ghost predicate Kept(s: seq<Ticket>, r: seq<Ticket>, i: nat)
    requires i < |r| <= |s|
  {
    r[i] == s[|s| - |r| + i].(filledQty := r[i].filledQty)
  }

  /** `r` is a suffix of `s` in which only filled quantities have changed. */
  ghost predicate Shrunk(s: seq<Ticket>, r: seq<Ticket>) {
    && |r| <= |s|
    && forall i {:trigger Kept(s, r, i)} | 0 <= i < |r| :: Kept(s, r, i)
  }

  lemma {:induction false} MatchShrinks(l: Ladder, taker: Ticket, respectPrice: bool, ts: u64, x: u32)
    requires WellFormed(l, taker.side.Opposite())
    ensures Shrunk(Level(l, x), Level(Match(l, taker, respectPrice, ts).ladder, x))
    decreases taker.Remaining()
  {
    if CanTrade(l, taker, respectPrice) {
      var p := BestPrice(l, taker.side);
      assert LevelOk(l[p], taker.side.Opposite(), p) && l[p][0] in l[p];
      var q := Min(taker.Remaining(), l[p][0].Remaining());
      ConsumeWellFormed(l, taker.side.Opposite(), p, q);
      MatchShrinks(Consume(l, p, q), taker.Take(q), respectPrice, ts, x);
      ConsumeShrinks(l, p, q, x);
      ShrunkTransitive(Level(l, x), Level(Consume(l, p, q), x), Level(Match(l, taker, respectPrice, ts).ladder, x));
    }
  }

  lemma ConsumeShrinks(l: Ladder, p: u32, q: u32, x: u32)
    requires p in l && l[p] != [] && q <= l[p][0].Remaining()
    ensures Shrunk(Level(l, x), Level(Consume(l, p, q), x))
  {
    hide Consume;
    ConsumeLevel(l, p, q, x);
  }

  lemma ShrunkSelf(s: seq<Ticket>)
    ensures Shrunk(s, s)
  {
  }

  lemma ShrunkTransitive(a: seq<Ticket>, b: seq<Ticket>, c: seq<Ticket>)
    requires Shrunk(a, b) && Shrunk(b, c)
    ensures Shrunk(a, c)
  {
    forall i | 0 <= i < |c| ensures Kept(a, c, i) {
      assert Kept(b, c, i) && Kept(a, b, |b| - |c| + i);
    }
  }

  ghost predicate BookShrunk(b: Book, r: Book) {
    forall side, p :: Shrunk(Level(b.On(side), p), Level(r.On(side), p))
  }

  lemma MatchShrinksBook(b: Book, t: Ticket, respectPrice: bool, ts: u64)
    requires BookOk(b)
    ensures var opp := t.side.Opposite();
            BookShrunk(b, b.With(opp, Match(b.On(opp), t, respectPrice, ts).ladder))
  {
    hide Match, Shrunk, WellFormed;
    var opp := t.side.Opposite();
    var r := b.With(opp, Match(b.On(opp), t, respectPrice, ts).ladder);
    forall side, p ensures Shrunk(Level(b.On(side), p), Level(r.On(side), p)) {
      if side == opp {
        MatchShrinks(b.On(opp), t, respectPrice, ts, p);
      } else {
        ShrunkSelf(Level(b.On(side), p));
      }
    }
  }

  lemma ShrunkHolds(b: Book, r: Book, t: Ticket) returns (u: Ticket)
    requires BookShrunk(b, r) && Holds(r, t)
    ensures Holds(b, u) && t == u.(filledQty := t.filledQty)
  {
    var s, s' := Level(b.On(t.side), t.price), Level(r.On(t.side), t.price);
    assert Shrunk(s, s');
    var i :| 0 <= i < |s'| && s'[i] == t;
    assert Kept(s, s', i);
    u := s[|s| - |s'| + i];
  }

  lemma ShrunkDistinct(b: Book, r: Book)
    requires Distinct(b) && BookShrunk(b, r)
    ensures Distinct(r)
  {
    hide BookShrunk;
    forall side, p ensures IdsDistinct(Level(r.On(side), p)) {
      ShrunkLevel(b, r, side, p);
    }
    forall t, u | Holds(r, t) && Holds(r, u) && t.orderId == u.orderId ensures t.side == u.side && t.price == u.price {
      var t' := ShrunkHolds(b, r, t);
      var u' := ShrunkHolds(b, r, u);
    }
  }

  lemma ShrunkLevel(b: Book, r: Book, side: Side, p: u32)
    requires BookShrunk(b, r) && IdsDistinct(Level(b.On(side), p))
    ensures IdsDistinct(Level(r.On(side), p))
  {
    var s, s' := Level(b.On(side), p), Level(r.On(side), p);
    forall i, j | 0 <= i < j < |s'| ensures s'[i].orderId != s'[j].orderId {
      assert Kept(s, s', i) && Kept(s, s', j);
    }
  }

  /** Matching brings no new id into the book. */
  lemma MatchAddsNoId(b: Book, t: Ticket, respectPrice: bool, ts: u64, id: u64)
    requires BookOk(b) && !Contains(b, id)
    ensures var opp := t.side.Opposite();
            !Contains(b.With(opp, Match(b.On(opp), t, respectPrice, ts).ladder), id)
  {
    var opp := t.side.Opposite();
    var r := b.With(opp, Match(b.On(opp), t, respectPrice, ts).ladder);
    MatchShrinksBook(b, t, respectPrice, ts);
    if Contains(r, id) {
      var u := ShrunkHolds(b, r, Find(r, id));
      assert false;
    }
  }

  lemma LevelHolds(b: Book, side: Side, p: u32)
    requires BookOk(b)
    ensures forall t | t in Level(b.On(side), p) :: t.side == side && t.price == p && Holds(b, t)
  {
  }

  lemma RestDistinct(b: Book, t: Ticket)
    requires BookOk(b) && Distinct(b) && !Contains(b, t.orderId)
    ensures Distinct(b.With(t.side, Rest(b.On(t.side), t)))
  {
    var r := b.With(t.side, Rest(b.On(t.side), t));
    hide BookOk, IdsDistinct, Contains;
    RestHolds(b, t);
    assert forall u | Holds(b, u) :: u.orderId != t.orderId by {
      AbsentId(b, t.orderId);
    }
    forall side, p ensures IdsDistinct(Level(r.On(side), p)) {
      assert IdsDistinct(Level(b.On(side), p));
      LevelHolds(b, side, p);
      if side == t.side && p == t.price {
        DistinctAppend(Level(b.On(side), p), t);
      }
    }
  }

  lemma RestHolds(b: Book, t: Ticket)
    ensures forall u | Holds(b.With(t.side, Rest(b.On(t.side), t)), u) :: u == t || Holds(b, u)
  {
  }

  lemma AbsentId(b: Book, id: u64)
    requires !Contains(b, id)
    ensures forall u | Holds(b, u) :: u.orderId != id
  {
  }

  lemma DistinctAppend(s: seq<Ticket>, t: Ticket)
    requires IdsDistinct(s) && forall u | u in s :: u.orderId != t.orderId
    ensures IdsDistinct(s + [t])
  {
  }

  lemma {:induction false} WithoutDistinct(s: seq<Ticket>, id: u64)
    requires IdsDistinct(s)
    ensures IdsDistinct(Without(s, id))
  {
    if s != [] {
      WithoutDistinct(s[1..], id);
      WithoutMember(s[1..], id);
      var r := Without(s[1..], id);
      forall j | 0 <= j < |r| ensures r[j].orderId != s[0].orderId {
        assert r[j] in r;
      }
    }
  }

  lemma CancelDistinct(b: Book, id: u64)
    requires BookOk(b) && Distinct(b)
    ensures Distinct(Cancel(b, id))
  {
    var r := Cancel(b, id);
    CancelRemoves(b, r, id);
    forall side, p ensures IdsDistinct(Level(r.On(side), p)) {
      assert IdsDistinct(Level(b.On(side), p));
      WithoutDistinct(Level(b.On(side), p), id);
    }
  }

  lemma SubmitDistinct(b: Book, t: Ticket, ty: OrderType, ts: u64)
    requires BookOk(b) && Distinct(b) && (ty != MARKET ==> t.price != 0)
    ensures Distinct(Submit(b, t, ty, ts).book)
  {
    if !Contains(b, t.orderId) {
      var opp := t.side.Opposite();
      var m := Match(b.On(opp), t, ty != MARKET, ts);
      var b' := b.With(opp, m.ladder);
      MatchShrinksBook(b, t, ty != MARKET, ts);
      ShrunkDistinct(b, b');
      MatchAddsNoId(b, t, ty != MARKET, ts, t.orderId);
      RestDistinct(b', m.taker);
    }
  }

  /** Every message keeps the ids of resting orders unique. */
  lemma ApplyDistinct(b: Book, m: FeedMessage)
    requires BookOk(b) && Distinct(b)
    ensures Distinct(Apply(b, m).book)
  {
    if IsValidFeedMessage(m) {
      if m.msgType == ADD {
        SubmitDistinct(b, TicketOf(m), TypeOf(m.orderType), m.sequence);
      } else {
        CancelDistinct(b, m.orderId);
        if m.msgType == MODIFY && Contains(b, m.orderId) {
          var t := Find(b, m.orderId).(price := m.price, qty := m.qty, filledQty := 0);
          SubmitDistinct(Cancel(b, m.orderId), t, LIMIT, m.sequence);
        }
      }
    }
  }

  /** In every reachable book ids are unique and no bid reaches an ask. */
  lemma {:induction false} RunInvariants(feed: seq<FeedMessage>)
    ensures Distinct(Run(EMPTY_BOOK, feed).book) && Uncrossed(Run(EMPTY_BOOK, feed).book)
  {
    if feed != [] {
      var n := |feed| - 1;
      RunInvariants(feed[..n]);
      ApplyDistinct(Run(EMPTY_BOOK, feed[..n]).book, feed[n]);
      ApplyUncrossed(Run(EMPTY_BOOK, feed[..n]).book, feed[n]);
    }
  }

  // ---- conservation of quantity ----

  /** The quantity resting on one side. */
  ghost function Total(l: Ladder): nat {
    Remains(Queue(l, BUY))
  }

  /** The total can be taken level by level, in any order. */
  lemma {:induction false} TotalPick(l: Ladder, p: u32)
    requires p in l
    ensures Total(l) == Remains(l[p]) + Total(l - {p})
    decreases |l|
  {
    var best := BestPrice(l, BUY);
    RemainsConcat(l[best], Queue(l - {best}, BUY));
    if p != best {
      TotalPick(l - {best}, p);
      var r := l - {p};
      QueueFrom(r, BUY, best);
      RemainsConcat(r[best], Queue(r - {best}, BUY));
      assert r - {best} == l - {best} - {p};
    }
  }

  lemma TotalUpdate(l: Ladder, p: u32, s: seq<Ticket>)
    ensures Total(l[p := s]) == Total(l) - Remains(Level(l, p)) + Remains(s)
  {
    TotalPick(l[p := s], p);
    assert l[p := s] - {p} == l - {p};
    if p in l {
      TotalPick(l, p);
    } else {
      assert l - {p} == l;
    }
  }

  lemma ConsumeTotal(l: Ladder, p: u32, q: u32)
    requires p in l && l[p] != [] && q <= l[p][0].Remaining()
    ensures Total(Consume(l, p, q)) == Total(l) - q
  {
    TotalPick(l, p);
    assert l[p] == [l[p][0]] + l[p][1..];
    var front := l[p][0].Take(q);
    if !front.Filled() {
      TotalUpdate(l, p, [front] + l[p][1..]);
    } else if |l[p]| > 1 {
      TotalUpdate(l, p, l[p][1..]);
    }
  }

  /** Matching moves the traded volume out of the opposite side and into the taker. */
  lemma {:induction false} MatchTotal(l: Ladder, taker: Ticket, respectPrice: bool, ts: u64)
    requires WellFormed(l, taker.side.Opposite())
    ensures var m := Match(l, taker, respectPrice, ts);
            && Total(m.ladder) == Total(l) - Volume(m.fills)
            && m.taker.filledQty == taker.filledQty + Volume(m.fills)
    decreases taker.Remaining()
  {
    if CanTrade(l, taker, respectPrice) {
      var p := BestPrice(l, taker.side);
      assert LevelOk(l[p], taker.side.Opposite(), p) && l[p][0] in l[p];
      var q := Min(taker.Remaining(), l[p][0].Remaining());
      ConsumeWellFormed(l, taker.side.Opposite(), p, q);
      ConsumeTotal(l, p, q);
      MatchTotal(Consume(l, p, q), taker.Take(q), respectPrice, ts);
    }
  }

  lemma {:induction false} WithoutRemains(s: seq<Ticket>, t: Ticket)
    requires IdsDistinct(s) && t in s
    ensures Remains(Without(s, t.orderId)) == Remains(s) - t.Remaining()
  {
    if s[0].orderId == t.orderId {
      assert s[0] == t;
      WithoutAbsent(s[1..], t.orderId);
      assert Without(s, t.orderId) == s[1..];
    } else {
      WithoutRemains(s[1..], t);
    }
  }

  /** Cancelling takes exactly the remaining quantity of the cancelled order off its side. */
  lemma CancelTotal(b: Book, t: Ticket)
    requires BookOk(b) && Distinct(b) && Holds(b, t)
    ensures var r := Cancel(b, t.orderId);
            && Total(r.On(t.side)) == Total(b.On(t.side)) - t.Remaining()
            && r.On(t.side.Opposite()) == b.On(t.side.Opposite())
  {
    var r := Cancel(b, t.orderId);
    CancelElsewhere(b, t);
    SameLevels(b.On(t.side.Opposite()), r.On(t.side.Opposite()), t.side.Opposite());
    assert IdsDistinct(Level(b.On(t.side), t.price));
    RemoveTotal(b.On(t.side), r.On(t.side), t);
  }

  lemma RemoveTotal(l: Ladder, r: Ladder, t: Ticket)
    requires WellFormed(l, t.side) && WellFormed(r, t.side) && t in Level(l, t.price) && IdsDistinct(l[t.price])
    requires Level(r, t.price) == Without(l[t.price], t.orderId)
    requires forall p | p != t.price :: Level(r, p) == Level(l, p)
    ensures Total(r) == Total(l) - t.Remaining()
  {
    hide Total, Without;
    var p := t.price;
    WithoutRemains(l[p], t);
    TotalPick(l, p);
    if p in r {
      TotalPick(r, p);
    } else {
      assert r - {p} == r;
    }
    forall x ensures Level(l - {p}, x) == Level(r - {p}, x) {
      assert x != p ==> Level(r, x) == Level(l, x);
    }
    SameLevels(l - {p}, r - {p}, t.side);
  }

  lemma CancelElsewhere(b: Book, t: Ticket)
    requires BookOk(b) && Distinct(b) && Holds(b, t)
    ensures var r := Cancel(b, t.orderId);
            forall side, p | !(side == t.side && p == t.price) :: Level(r.On(side), p) == Level(b.On(side), p)
  {
    var r := Cancel(b, t.orderId);
    forall side, p | !(side == t.side && p == t.price) ensures Level(r.On(side), p) == Level(b.On(side), p) {
      LevelHolds(b, side, p);
      WithoutAbsent(Level(b.On(side), p), t.orderId);
    }
  }

  lemma SameLevels(l: Ladder, r: Ladder, side: Side)
    requires WellFormed(l, side) && WellFormed(r, side)
    requires forall p :: Level(l, p) == Level(r, p)
    ensures l == r
  {
    forall p ensures p in l <==> p in r {
      assert Level(l, p) == Level(r, p);
      assert p in l ==> LevelOk(l[p], side, p);
      assert p in r ==> LevelOk(r[p], side, p);
    }
    assert forall p | p in l :: l[p] == Level(l, p) == Level(r, p) == r[p];
  }

  /** What a message brings in on a side: an accepted ADD's or a successful MODIFY's new quantity. */
  ghost function Entered(b: Book, m: FeedMessage, side: Side): nat {
    if !IsValidFeedMessage(m) then 0
    else if m.msgType == ADD && !Contains(b, m.orderId) && SideOf(m.side) == side then m.qty
    else if m.msgType == MODIFY && Contains(b, m.orderId) && Find(b, m.orderId).side == side then m.qty
    else 0
  }

  /** What is left of an order once it has traded with all it can. */
  ghost function Unspent(b: Book, t: Ticket, ty: OrderType, ts: u64): nat
    requires BookOk(b)
  {
    Match(b.On(t.side.Opposite()), t, ty != MARKET, ts).taker.Remaining()
  }

  /** What a message throws away on a side: the remainder of a cancelled or replaced order, and the residue of a
      MARKET or IOC order. */
  ghost function Discarded(b: Book, m: FeedMessage, side: Side): nat
    requires BookOk(b)
  {
    if !IsValidFeedMessage(m) then 0
    else if m.msgType == ADD then
      if TypeOf(m.orderType) != LIMIT && !Contains(b, m.orderId) && SideOf(m.side) == side
      then Unspent(b, TicketOf(m), TypeOf(m.orderType), m.sequence) else 0
    else if Contains(b, m.orderId) && Find(b, m.orderId).side == side then Find(b, m.orderId).Remaining()
    else 0
  }

  lemma SubmitTotal(b: Book, t: Ticket, ty: OrderType, ts: u64, side: Side)
    requires BookOk(b) && (ty != MARKET ==> t.price != 0) && !Contains(b, t.orderId) && t.filledQty == 0
    ensures var r := Submit(b, t, ty, ts);
            && Volume(r.fills) + Unspent(b, t, ty, ts) == t.qty
            && (side != t.side ==> Total(r.book.On(side)) == Total(b.On(side)) - Volume(r.fills))
            && (side == t.side && ty == LIMIT ==> Total(r.book.On(side)) == Total(b.On(side)) + t.qty - Volume(r.fills))
            && (side == t.side && ty != LIMIT ==> Total(r.book.On(side)) == Total(b.On(side)))
  {
    hide Match, Total, Volume, WellFormed;
    var m := Match(b.On(t.side.Opposite()), t, ty != MARKET, ts);
    MatchTotal(b.On(t.side.Opposite()), t, ty != MARKET, ts);
    if ty == LIMIT && !m.taker.Filled() {
      var l := b.On(t.side);
      TotalUpdate(l, t.price, Level(l, t.price) + [m.taker]);
      RemainsConcat(Level(l, t.price), [m.taker]);
    }
  }

  ghost predicate Balanced(b: Book, m: FeedMessage, side: Side)
    requires BookOk(b)
  {
    var r := Apply(b, m);
    Entered(b, m, side) + Total(b.On(side)) == Volume(r.fills) + Total(r.book.On(side)) + Discarded(b, m, side)
  }

  lemma AddBalances(b: Book, m: FeedMessage, side: Side)
    requires BookOk(b) && IsValidFeedMessage(m) && m.msgType == ADD
    ensures Balanced(b, m, side)
  {
    if !Contains(b, m.orderId) {
      SubmitTotal(b, TicketOf(m), TypeOf(m.orderType), m.sequence, side);
    }
  }

  /** One message balances on each side: entered plus resting before equals traded plus resting after plus discarded. */
  lemma ApplyBalances(b: Book, m: FeedMessage, side: Side)
    requires BookOk(b) && Distinct(b)
    ensures Balanced(b, m, side)
  {
    if IsValidFeedMessage(m) {
      if m.msgType == ADD {
        AddBalances(b, m, side);
      } else if Contains(b, m.orderId) {
        TargetBalances(b, m, side);
      } else {
        CancelAbsent(b, m.orderId);
      }
    }
  }

  lemma TargetBalances(b: Book, m: FeedMessage, side: Side)
    requires BookOk(b) && Distinct(b) && IsValidFeedMessage(m) && m.msgType != ADD && Contains(b, m.orderId)
    ensures Balanced(b, m, side)
  {
    hide Ladders.Submit, Ladders.Cancel, Total, Distinct, BookOk, Contains;
    var t := Find(b, m.orderId);
    CancelTotal(b, t);
    var b' := Cancel(b, m.orderId);
    assert side == t.side || b'.On(side) == b.On(side);
    if m.msgType == MODIFY {
      SubmitTotal(b', t.(price := m.price, qty := m.qty, filledQty := 0), LIMIT, m.sequence, side);
    }
  }

  lemma CancelAbsent(b: Book, id: u64)
    requires BookOk(b) && !Contains(b, id)
    ensures Cancel(b, id) == b
  {
    var r := Cancel(b, id);
    forall side, p ensures Level(b.On(side), p) == Level(r.On(side), p) {
      LevelHolds(b, side, p);
      WithoutAbsent(Level(b.On(side), p), id);
    }
    SameLevels(b.On(BUY), r.On(BUY), BUY);
    SameLevels(b.On(SELL), r.On(SELL), SELL);
  }

  ghost function EnteredOver(feed: seq<FeedMessage>, side: Side): nat {
    if feed == [] then 0
    else
      var init := feed[..|feed| - 1];
      EnteredOver(init, side) + Entered(Run(EMPTY_BOOK, init).book, feed[|feed| - 1], side)
  }

  ghost function DiscardedOver(feed: seq<FeedMessage>, side: Side): nat {
    if feed == [] then 0
    else
      var init := feed[..|feed| - 1];
      DiscardedOver(init, side) + Discarded(Run(EMPTY_BOOK, init).book, feed[|feed| - 1], side)
  }

  lemma {:induction false} VolumeConcat(a: seq<Fill>, b: seq<Fill>)
    ensures Volume(a + b) == Volume(a) + Volume(b)
  {
    if a == [] {
      assert a + b == b;
    } else {
      assert (a + b)[1..] == a[1..] + b;
      VolumeConcat(a[1..], b);
    }
  }

  /** Over every feed and on each side, the quantity entered is the volume traded, plus what rests, plus what was
      discarded. */
  lemma {:induction false} QuantityConserved(feed: seq<FeedMessage>, side: Side)
    ensures var r := Run(EMPTY_BOOK, feed);
            EnteredOver(feed, side) == Volume(r.fills) + Total(r.book.On(side)) + DiscardedOver(feed, side)
  {
    if feed != [] {
      var n := |feed| - 1;
      var before := Run(EMPTY_BOOK, feed[..n]);
      QuantityConserved(feed[..n], side);
      RunInvariants(feed[..n]);
      ApplyBalances(before.book, feed[n], side);
      VolumeConcat(before.fills, Apply(before.book, feed[n]).fills);
    }
  }
}
