/** The matching engine as a function on price ladders: a ladder maps each price of one side to its FIFO queue.
    The heap engine is proved to compute these functions, and what matching promises is proved about them. */
module Ladders {
  import opened Protocol

  type Ladder = map<u32, seq<Ticket>>

  ghost predicate LevelOk(s: seq<Ticket>, side: Side, p: u32) {
    s != [] && forall t | t in s :: t.price == p && t.side == side && t.filledQty < t.qty
  }

  /** No level is empty or sits at price 0, and every order rests, unfilled, under its own price and side. */
  ghost predicate WellFormed(l: Ladder, side: Side) {
    0 !in l && forall p | p in l :: LevelOk(l[p], side, p)
  }

  function Level(l: Ladder, p: u32): seq<Ticket> {
    if p in l then l[p] else []
  }

  /** Price `p` is strictly better than `q` for a taker on side `taker`. */
  predicate Better(taker: Side, p: u32, q: u32) {
    if taker.BUY? then p < q else p > q
  }

  ghost predicate IsBest(keys: set<u32>, taker: Side, p: u32) {
    p in keys && forall q | q in keys :: q == p || Better(taker, p, q)
  }

  lemma {:induction false} BestExists(keys: set<u32>, taker: Side)
    requires keys != {}
    ensures exists p :: IsBest(keys, taker, p)
    decreases |keys|
  {
    var q :| q in keys;
    if forall k | k in keys :: k == q {
      assert IsBest(keys, taker, q);
    } else {
      var other :| other in keys && other != q;
      assert other in keys - {q};
      BestExists(keys - {q}, taker);
      var p :| IsBest(keys - {q}, taker, p);
      var best := if Better(taker, p, q) then p else q;
      assert forall k | k in keys :: k == q || k in keys - {q};
      assert IsBest(keys, taker, best);
    }
  }

  ghost function BestPrice(l: Ladder, taker: Side): (p: u32)
    requires l != map[]
    ensures IsBest(l.Keys, taker, p)
  {
    assert l.Keys != {};
    BestExists(l.Keys, taker);
    var p :| IsBest(l.Keys, taker, p);
    p
  }

  predicate Crosses(taker: Ticket, p: u32) {
    if taker.side.BUY? then p <= taker.price else p >= taker.price
  }

  ghost predicate CanTrade(l: Ladder, taker: Ticket, respectPrice: bool) {
    && !taker.Filled()
    && l != map[]
    && (respectPrice ==> Crosses(taker, BestPrice(l, taker.side)))
  }

  /** Fill the front order at price `p` by `q`; a filled order leaves its level, an emptied level leaves the ladder. */
  ghost function Consume(l: Ladder, p: u32, q: u32): (r: Ladder)
    requires p in l && l[p] != [] && q <= l[p][0].Remaining()
  {
    var front := l[p][0].Take(q);
    if !front.Filled() then l[p := [front] + l[p][1..]]
    else if |l[p]| > 1 then l[p := l[p][1..]]
    else l - {p}
  }

  function Residue(t: Ticket, q: u32): seq<Ticket>
    requires q <= t.Remaining()
  {
    if t.Take(q).Filled() then [] else [t.Take(q)]
  }

  lemma ConsumeLevel(l: Ladder, p: u32, q: u32, x: u32)
    requires p in l && l[p] != [] && q <= l[p][0].Remaining()
    ensures Level(Consume(l, p, q), x) == if x == p then Residue(l[p][0], q) + l[p][1..] else Level(l, x)
  {
  }

  datatype Matched = Matched(ladder: Ladder, taker: Ticket, fills: seq<Fill>)

  /** What the match loop computes against the opposite ladder. */
  ghost function Match(l: Ladder, taker: Ticket, respectPrice: bool, ts: u64): (r: Matched)
    requires WellFormed(l, taker.side.Opposite())
    ensures WellFormed(r.ladder, taker.side.Opposite())
    ensures r.taker == taker.(filledQty := r.taker.filledQty)
    ensures taker.filledQty <= r.taker.filledQty && (taker.filledQty <= taker.qty ==> r.taker.filledQty <= taker.qty)
    ensures !CanTrade(r.ladder, r.taker, respectPrice)
    decreases taker.Remaining()
  {
    if !CanTrade(l, taker, respectPrice) then Matched(l, taker, [])
    else
      var p := BestPrice(l, taker.side);
      assert LevelOk(l[p], taker.side.Opposite(), p) && l[p][0] in l[p];
      var q := Min(taker.Remaining(), l[p][0].Remaining());
      ConsumeWellFormed(l, taker.side.Opposite(), p, q);
      var next := Match(Consume(l, p, q), taker.Take(q), respectPrice, ts);
      next.(fills := [FillOf(l[p][0], taker, p, q, ts)] + next.fills)
  }

  lemma ConsumeWellFormed(l: Ladder, side: Side, p: u32, q: u32)
    requires WellFormed(l, side) && p in l && 0 < q && q <= l[p][0].Remaining()
    ensures WellFormed(Consume(l, p, q), side)
  {
  }

  // ---- quantities ----

  function Remains(s: seq<Ticket>): nat {
    if s == [] then 0 else s[0].Remaining() + Remains(s[1..])
  }

  lemma {:induction false} RemainsConcat(a: seq<Ticket>, b: seq<Ticket>)
    ensures Remains(a + b) == Remains(a) + Remains(b)
  {
    if a == [] {
      assert a + b == b;
    } else {
      assert (a + b)[1..] == a[1..] + b;
      RemainsConcat(a[1..], b);
    }
  }

  lemma {:induction false} RemainsBound(s: seq<Ticket>)
    ensures Remains(s) <= |s| * (TWO_32 - 1)
  {
    if s != [] {
      RemainsBound(s[1..]);
    }
  }

  // ---- books ----

  datatype Book = Book(bids: Ladder, asks: Ladder) {
    function On(side: Side): Ladder {
      if side.BUY? then bids else asks
    }

    function With(side: Side, l: Ladder): Book {
      if side.BUY? then this.(bids := l) else this.(asks := l)
    }
  }

  const EMPTY_BOOK: Book := Book(map[], map[])

  ghost predicate BookOk(b: Book) {
    WellFormed(b.bids, BUY) && WellFormed(b.asks, SELL)
  }

  /** Ticket `t` is resting in the book. */
  predicate Holds(b: Book, t: Ticket) {
    t in Level(b.On(t.side), t.price)
  }

  /** Some resting order has this id. */
  ghost predicate Contains(b: Book, id: u64) {
    exists t :: Holds(b, t) && t.orderId == id
  }

  function Without(s: seq<Ticket>, id: u64): (r: seq<Ticket>) {
    if s == [] then []
    else (if s[0].orderId == id then [] else [s[0]]) + Without(s[1..], id)
  }

  lemma {:induction false} WithoutMember(s: seq<Ticket>, id: u64)
    ensures forall t :: t in Without(s, id) <==> t in s && t.orderId != id
  {
    if s != [] {
      WithoutMember(s[1..], id);
      assert s == [s[0]] + s[1..];
    }
  }

  lemma {:induction false} WithoutConcat(a: seq<Ticket>, b: seq<Ticket>, id: u64)
    ensures Without(a + b, id) == Without(a, id) + Without(b, id)
  {
    if a == [] {
      assert a + b == b;
    } else {
      assert (a + b)[1..] == a[1..] + b;
      WithoutConcat(a[1..], b, id);
    }
  }

  lemma {:induction false} WithoutAbsent(s: seq<Ticket>, id: u64)
    requires forall t | t in s :: t.orderId != id
    ensures Without(s, id) == s
  {
    if s != [] {
      WithoutAbsent(s[1..], id);
    }
  }

  lemma WithoutMiddle(a: seq<Ticket>, mid: seq<Ticket>, c: seq<Ticket>, id: u64)
    requires forall t | t in a :: t.orderId != id
    requires forall t | t in c :: t.orderId != id
    requires Without(mid, id) == []
    ensures Without(a + mid + c, id) == a + c
  {
    hide Without;
    WithoutAbsent(a, id);
    WithoutAbsent(c, id);
    calc {
      Without(a + mid + c, id);
    ==  { WithoutConcat(a + mid, c, id); }
      Without(a + mid, id) + c;
    ==  { WithoutConcat(a, mid, id); }
      a + c;
    }
  }

  function Remove(l: Ladder, id: u64): (r: Ladder)
    ensures forall p :: Level(r, p) == Without(Level(l, p), id)
    ensures forall p | p in r :: r[p] != []
  {
    map p | p in l && Without(l[p], id) != [] :: Without(l[p], id)
  }

  function Rest(l: Ladder, t: Ticket): Ladder {
    l[t.price := Level(l, t.price) + [t]]
  }

  datatype Outcome = Outcome(book: Book, fills: seq<Fill>)

  lemma RestWellFormed(l: Ladder, t: Ticket)
    requires WellFormed(l, t.side) && t.price != 0 && t.filledQty < t.qty
    ensures WellFormed(Rest(l, t), t.side)
  {
  }

  lemma RemoveWellFormed(l: Ladder, side: Side, id: u64)
    requires WellFormed(l, side)
    ensures WellFormed(Remove(l, id), side)
  {
    var r := Remove(l, id);
    forall p | p in r ensures LevelOk(r[p], side, p) {
      assert LevelOk(l[p], side, p);
      WithoutMember(l[p], id);
    }
  }

  /** processOrder: match, then let an unfilled LIMIT rest and drop every other residue. */
  ghost function Submit(b: Book, t: Ticket, ty: OrderType, ts: u64): (r: Outcome)
    requires BookOk(b) && (ty != MARKET ==> t.price != 0)
    ensures BookOk(r.book)
  {
    if Contains(b, t.orderId) then Outcome(b, [])
    else
      var m := Match(b.On(t.side.Opposite()), t, ty != MARKET, ts);
      var b' := b.With(t.side.Opposite(), m.ladder);
      if ty == LIMIT && !m.taker.Filled() then
        RestWellFormed(b'.On(t.side), m.taker);
        Outcome(b'.With(t.side, Rest(b'.On(t.side), m.taker)), m.fills)
      else Outcome(b', m.fills)
  }

  lemma CancelRemoves(b: Book, r: Book, id: u64)
    requires r == Book(Remove(b.bids, id), Remove(b.asks, id))
    ensures forall t :: Holds(r, t) <==> Holds(b, t) && t.orderId != id
  {
    forall t ensures Holds(r, t) <==> Holds(b, t) && t.orderId != id {
      WithoutMember(Level(b.On(t.side), t.price), id);
    }
  }

  ghost function Cancel(b: Book, id: u64): (r: Book)
    requires BookOk(b)
    ensures BookOk(r)
    ensures !Contains(r, id)
  {
    RemoveWellFormed(b.bids, BUY, id);
    RemoveWellFormed(b.asks, SELL, id);
    var r := Book(Remove(b.bids, id), Remove(b.asks, id));
    CancelRemoves(b, r, id);
    r
  }

  ghost function Find(b: Book, id: u64): (t: Ticket)
    requires Contains(b, id)
    ensures Holds(b, t) && t.orderId == id
  {
    var t :| Holds(b, t) && t.orderId == id; t
  }

  /** Cancel and resubmit as a LIMIT order that has lost its time priority. */
  ghost function Modify(b: Book, id: u64, price: u32, qty: u32, ts: u64): (r: Outcome)
    requires BookOk(b) && price != 0
    ensures BookOk(r.book)
  {
    if !Contains(b, id) then Outcome(b, [])
    else Submit(Cancel(b, id), Find(b, id).(price := price, qty := qty, filledQty := 0), LIMIT, ts)
  }

  /** One message; invalid ones change nothing. */
  ghost function Apply(b: Book, m: FeedMessage): (r: Outcome)
    requires BookOk(b)
    ensures BookOk(r.book)
  {
    if !IsValidFeedMessage(m) then Outcome(b, [])
    else if m.msgType == ADD then Submit(b, TicketOf(m), TypeOf(m.orderType), m.sequence)
    else if m.msgType == CANCEL then Outcome(Cancel(b, m.orderId), [])
    else Modify(b, m.orderId, m.price, m.qty, m.sequence)
  }

  /** The whole feed in order, from book `b`. */
  ghost function Run(b: Book, feed: seq<FeedMessage>): (r: Outcome)
    requires BookOk(b)
    ensures BookOk(r.book)
  {
    if feed == [] then Outcome(b, [])
    else
      var before := Run(b, feed[..|feed| - 1]);
      var last := Apply(before.book, feed[|feed| - 1]);
      Outcome(last.book, before.fills + last.fills)
  }
}
