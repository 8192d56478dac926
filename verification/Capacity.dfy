/** The engine behind a pool of limited capacity: an ADD that finds no free slot is dropped
    (src/ReplayEngine.cpp, include/matching/ShardedEngine.h). */
module Capacity {
  import opened Protocol
  import opened Ladders
  import opened BookInvariants

  ghost function IdsOf(l: Ladder): set<u64> {
    set p, t | p in l && t in l[p] :: t.orderId
  }

  /** The ids resting in a book: one slot each. */
  ghost function Ids(b: Book): set<u64> {
    IdsOf(b.bids) + IdsOf(b.asks)
  }

  lemma IdsContain(b: Book, id: u64)
    requires BookOk(b)
    ensures id in Ids(b) <==> Contains(b, id)
  {
  }

  lemma SubmitIds(b: Book, t: Ticket, ty: OrderType, ts: u64, id: u64)
    requires BookOk(b) && (ty != MARKET ==> t.price != 0)
    ensures Contains(Submit(b, t, ty, ts).book, id) ==> Contains(b, id) || id == t.orderId
  {
    hide Match, WellFormed;
    var r := Submit(b, t, ty, ts).book;
    if Contains(r, id) && !Contains(b, id) {
      var opp := t.side.Opposite();
      MatchAddsNoId(b, t, ty != MARKET, ts, id);
      var m := Match(b.On(opp), t, ty != MARKET, ts);
      var u := Find(r, id);
      assert !Holds(b.With(opp, m.ladder), u);
      assert u == m.taker;
    }
  }

  /** Only an ADD can bring in an id, and only its own. */
  lemma ApplyIds(b: Book, m: FeedMessage)
    requires BookOk(b)
    ensures Ids(Apply(b, m).book) <= Ids(b) + (if IsValidFeedMessage(m) && m.msgType == ADD then {m.orderId} else {})
  {
    var r := Apply(b, m).book;
    forall id | id in Ids(r) ensures id in Ids(b) || (IsValidFeedMessage(m) && m.msgType == ADD && id == m.orderId) {
      IdsContain(r, id);
      IdsContain(b, id);
      if IsValidFeedMessage(m) {
        if m.msgType == ADD {
          SubmitIds(b, TicketOf(m), TypeOf(m.orderType), m.sequence, id);
        } else {
          var c := Cancel(b, m.orderId);
          CancelRemoves(b, c, m.orderId);
          IdsContain(b, m.orderId);
          if m.msgType == MODIFY && Contains(b, m.orderId) {
            SubmitIds(c, Find(b, m.orderId).(price := m.price, qty := m.qty, filledQty := 0), LIMIT, m.sequence, id);
          }
        }
      }
    }
  }

  lemma CountUp(a: set<u64>, b: set<u64>, id: u64)
    ensures a <= b ==> |a| <= |b|
    ensures a <= b + {id} ==> |a| <= |b| + 1
  {
    if a <= b {
      assert b == a + (b - a);
    }
    if a <= b + {id} {
      assert b + {id} == a + (b + {id} - a);
      assert b + {id} == b + ({id} - b);
    }
  }

  /** A message that the pool turns away. */
  predicate Dropped(m: FeedMessage, free: nat) {
    IsValidFeedMessage(m) && m.msgType == ADD && free == 0
  }

  /** A book together with the free slots of the pool it draws on. */
  datatype Desk = Desk(book: Book, free: nat, fills: seq<Fill>)

  ghost function Serve(d: Desk, m: FeedMessage): (r: Desk)
    requires BookOk(d.book)
    ensures BookOk(r.book)
    ensures r.free + |Ids(r.book)| == d.free + |Ids(d.book)|
  {
    if Dropped(m, d.free) then d
    else
      var o := Apply(d.book, m);
      ApplyIds(d.book, m);
      CountUp(Ids(o.book), Ids(d.book), m.orderId);
      Desk(o.book, d.free + |Ids(d.book)| - |Ids(o.book)|, d.fills + o.fills)
  }

  /** The fills collected before do not matter to the next message. */
  lemma ServeAppends(d: Desk, m: FeedMessage)
    requires BookOk(d.book)
    ensures var r := Serve(d.(fills := []), m);
            Serve(d, m) == r.(fills := d.fills + r.fills)
  {
    hide Ladders.Apply, Ladders.BookOk, Ids;
    var f := Apply(d.book, m).fills;
    assert [] + f == f && d.fills + [] == d.fills;
  }

  ghost function ServeAll(d: Desk, feed: seq<FeedMessage>): (r: Desk)
    requires BookOk(d.book)
    ensures BookOk(r.book) && r.free + |Ids(r.book)| == d.free + |Ids(d.book)|
  {
    if feed == [] then d
    else Serve(ServeAll(d, feed[..|feed| - 1]), feed[|feed| - 1])
  }

  /** The feed without the ADDs that the pool turned away. */
  ghost function Served(d: Desk, feed: seq<FeedMessage>): (r: seq<FeedMessage>)
    requires BookOk(d.book)
  {
    if feed == [] then []
    else
      var init, m := feed[..|feed| - 1], feed[|feed| - 1];
      if Dropped(m, ServeAll(d, init).free) then Served(d, init) else Served(d, init) + [m]
  }

  lemma ServedStep(d: Desk, s: seq<FeedMessage>, m: FeedMessage)
    requires BookOk(d.book)
    ensures Served(d, s + [m]) == if Dropped(m, ServeAll(d, s).free) then Served(d, s) else Served(d, s) + [m]
    ensures ServeAll(d, s + [m]) == Serve(ServeAll(d, s), m)
  {
  }

  lemma RunStep(b: Book, s: seq<FeedMessage>, m: FeedMessage)
    requires BookOk(b)
    ensures var r, o := Run(b, s), Apply(Run(b, s).book, m);
            Run(b, s + [m]) == Outcome(o.book, r.fills + o.fills)
  {
  }

  /** A limited pool does nothing but leave out the dropped ADDs. */
  lemma {:induction false} ServeAllIsRun(d: Desk, feed: seq<FeedMessage>)
    requires BookOk(d.book)
    ensures var r := Run(d.book, Served(d, feed));
            ServeAll(d, feed).book == r.book && ServeAll(d, feed).fills == d.fills + r.fills
  {
    hide Ladders.Apply, Ladders.BookOk, Ids;
    if feed == [] {
      assert d.fills + [] == d.fills;
    } else {
      var init, m := feed[..|feed| - 1], feed[|feed| - 1];
      ServeAllIsRun(d, init);
      if !Dropped(m, ServeAll(d, init).free) {
        var s := Served(d, init);
        RunStep(d.book, s, m);
        var o := Apply(ServeAll(d, init).book, m);
        assert d.fills + Run(d.book, s).fills + o.fills == d.fills + (Run(d.book, s).fills + o.fills);
      }
    }
  }

  function Adds(feed: seq<FeedMessage>): nat {
    if feed == [] then 0 else Adds(feed[..|feed| - 1]) + Takes(feed[|feed| - 1])
  }

  /** The slots a message may use up. */
  function Takes(m: FeedMessage): nat {
    if IsValidFeedMessage(m) && m.msgType == ADD then 1 else 0
  }

  lemma AddsStep(feed: seq<FeedMessage>, m: FeedMessage)
    ensures Adds(feed + [m]) == Adds(feed) + Takes(m)
  {
  }

  lemma ServeTakes(d: Desk, m: FeedMessage)
    requires BookOk(d.book)
    ensures Serve(d, m).free >= d.free - Takes(m)
  {
    hide Ladders.Apply, Ladders.BookOk;
    ApplyIds(d.book, m);
    CountUp(Ids(Apply(d.book, m).book), Ids(d.book), m.orderId);
  }

  /** A pool with a free slot for every ADD drops nothing. */
  lemma {:induction false} EnoughSlots(d: Desk, feed: seq<FeedMessage>)
    requires BookOk(d.book) && Adds(feed) <= d.free
    ensures Served(d, feed) == feed
    ensures ServeAll(d, feed).free >= d.free - Adds(feed)
  {
    if feed != [] {
      hide Serve, ServeAll, Served, Adds, Ladders.BookOk;
      var init, m := feed[..|feed| - 1], feed[|feed| - 1];
      assert feed == init + [m];
      AddsStep(init, m);
      EnoughSlots(d, init);
      ServedStep(d, init, m);
      ServeTakes(ServeAll(d, init), m);
    }
  }
}
