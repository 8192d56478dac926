/** Price-time priority: matching consumes a prefix of the opposite side, best price first and oldest first within a
    price (src/MatchingEngine.cpp, matchOneSide). */
module Sweep {
  import opened Protocol
  import opened Ladders

  /** One side of the book as a single queue in priority order for a taker. */
  ghost function Queue(l: Ladder, taker: Side): (q: seq<Ticket>)
    decreases |l|
  {
    if l == map[] then []
    else
      var p := BestPrice(l, taker);
      l[p] + Queue(l - {p}, taker)
  }

  datatype Swept = Swept(left: seq<Ticket>, taker: Ticket, fills: seq<Fill>)

  /** The simple form: walk down one queue, taking from its head. */
  function Walk(q: seq<Ticket>, taker: Ticket, respectPrice: bool, ts: u64): (r: Swept)
    decreases |q|
  {
    if taker.Filled() || q == [] || (respectPrice && !Crosses(taker, q[0].price)) then Swept(q, taker, [])
    else
      var x := Min(taker.Remaining(), q[0].Remaining());
      var fill := FillOf(q[0], taker, q[0].price, x, ts);
      if q[0].Take(x).Filled() then
        var r := Walk(q[1..], taker.Take(x), respectPrice, ts);
        r.(fills := [fill] + r.fills)
      else Swept([q[0].Take(x)] + q[1..], taker.Take(x), [fill])
  }

  lemma QueueFrom(l: Ladder, taker: Side, p: u32)
    requires IsBest(l.Keys, taker, p)
    ensures Queue(l, taker) == l[p] + Queue(l - {p}, taker)
  {
  }

  /** Consuming from the best level is consuming from the head of the queue. */
  lemma ConsumeHead(l: Ladder, taker: Side, p: u32, x: u32)
    requires IsBest(l.Keys, taker, p) && l[p] != [] && x <= l[p][0].Remaining()
    ensures Queue(l, taker) != [] && Queue(l, taker)[0] == l[p][0]
    ensures Queue(Consume(l, p, x), taker)
            == (if l[p][0].Take(x).Filled() then [] else [l[p][0].Take(x)]) + Queue(l, taker)[1..]
  {
    var r := Consume(l, p, x);
    QueueFrom(l, taker, p);
    assert r - {p} == l - {p};
    if p in r {
      QueueFrom(r, taker, p);
    }
  }

  /** The loop over levels of FIFO queues does what a walk down one priority queue does. */
  lemma {:induction false} MatchIsWalk(l: Ladder, taker: Ticket, respectPrice: bool, ts: u64)
    requires WellFormed(l, taker.side.Opposite())
    ensures WalkOf(l, taker, respectPrice, ts) == Walk(Queue(l, taker.side), taker, respectPrice, ts)
    decreases taker.Remaining()
  {
    if l != map[] {
      var p := BestPrice(l, taker.side);
      assert LevelOk(l[p], taker.side.Opposite(), p) && l[p][0] in l[p];
      ConsumeHead(l, taker.side, p, 0);
      if CanTrade(l, taker, respectPrice) {
        var x := Min(taker.Remaining(), l[p][0].Remaining());
        ConsumeHead(l, taker.side, p, x);
        ConsumeWellFormed(l, taker.side.Opposite(), p, x);
        MatchIsWalk(Consume(l, p, x), taker.Take(x), respectPrice, ts);
        var q := Queue(l, taker.side);
        if l[p][0].Take(x).Filled() {
          assert Queue(Consume(l, p, x), taker.side) == q[1..];
        } else {
          assert taker.Take(x).Filled();
        }
      }
    }
  }

  /** The result of matching, with the ladder read as a queue. */
  ghost function WalkOf(l: Ladder, taker: Ticket, respectPrice: bool, ts: u64): Swept
    requires WellFormed(l, taker.side.Opposite())
  {
    var m := Match(l, taker, respectPrice, ts);
    Swept(Queue(m.ladder, taker.side), m.taker, m.fills)
  }

  ghost predicate Sorted(q: seq<Ticket>, taker: Side) {
    forall i, j | 0 <= i < j < |q| :: q[i].price == q[j].price || Better(taker, q[i].price, q[j].price)
  }

  lemma {:induction false} QueueSorted(l: Ladder, taker: Side, side: Side)
    requires WellFormed(l, side)
    ensures Sorted(Queue(l, taker), taker)
    ensures forall t | t in Queue(l, taker) :: t.price in l && t in l[t.price]
    decreases |l|
  {
    if l != map[] {
      var p := BestPrice(l, taker);
      assert LevelOk(l[p], side, p);
      assert WellFormed(l - {p}, side);
      QueueSorted(l - {p}, taker, side);
      var rest := Queue(l - {p}, taker);
      forall i, j | 0 <= i < j < |l[p] + rest|
        ensures (l[p] + rest)[i].price == (l[p] + rest)[j].price
             || Better(taker, (l[p] + rest)[i].price, (l[p] + rest)[j].price)
      {
        if i < |l[p]| { assert l[p][i] in l[p]; }
        if j < |l[p]| { assert l[p][j] in l[p]; } else { assert rest[j - |l[p]|] in rest; }
      }
    }
  }

  function AtPrice(q: seq<Ticket>, p: u32): seq<Ticket> {
    if q == [] then [] else (if q[0].price == p then [q[0]] else []) + AtPrice(q[1..], p)
  }

  lemma {:induction false} AtPriceConcat(a: seq<Ticket>, b: seq<Ticket>, p: u32)
    ensures AtPrice(a + b, p) == AtPrice(a, p) + AtPrice(b, p)
  {
    if a == [] {
      assert a + b == b;
    } else {
      assert (a + b)[1..] == a[1..] + b;
      AtPriceConcat(a[1..], b, p);
      var head := if a[0].price == p then [a[0]] else [];
      assert head + (AtPrice(a[1..], p) + AtPrice(b, p)) == head + AtPrice(a[1..], p) + AtPrice(b, p);
    }
  }

  lemma {:induction false} AtPriceUniform(s: seq<Ticket>, x: u32, p: u32)
    requires forall t | t in s :: t.price == x
    ensures AtPrice(s, p) == if x == p then s else []
  {
    if s != [] {
      assert s[0] in s;
      AtPriceUniform(s[1..], x, p);
    }
  }

  /** The queue holds exactly the orders of the ladder: its orders at each price are that level, in arrival order. */
  lemma {:induction false} QueueKeepsArrival(l: Ladder, taker: Side, side: Side, p: u32)
    requires WellFormed(l, side)
    ensures AtPrice(Queue(l, taker), p) == Level(l, p)
    decreases |l|
  {
    if l != map[] {
      hide AtPrice;
      var best := BestPrice(l, taker);
      assert LevelOk(l[best], side, best);
      assert WellFormed(l - {best}, side);
      QueueKeepsArrival(l - {best}, taker, side, p);
      AtPriceConcat(l[best], Queue(l - {best}, taker), p);
      AtPriceUniform(l[best], best, p);
    }
  }

  function Volume(fills: seq<Fill>): nat {
    if fills == [] then 0 else fills[0].qty + Volume(fills[1..])
  }

  /** Fill `i` is made with order `i`, at its price, and uses it up unless it is the last. */
  predicate Takes(q: seq<Ticket>, taker: Ticket, fills: seq<Fill>, ts: u64, i: nat)
    requires i < |fills| <= |q|
  {
    && 0 < fills[i].qty <= q[i].Remaining()
    && fills[i] == FillOf(q[i], taker, q[i].price, fills[i].qty, ts)
    && (i < |fills| - 1 ==> fills[i].qty == q[i].Remaining())
  }

  /** The fills are made with the first `|fills|` orders of the queue, in order and at their prices; every one but the
      last is used up, and what is left is the rest of the queue behind the residue of the last one. */
  ghost predicate TakesPrefix(q: seq<Ticket>, taker: Ticket, w: Swept, ts: u64) {
    var k := |w.fills|;
    && k <= |q|
    && (forall i {:trigger Takes(q, taker, w.fills, ts, i)} | 0 <= i < k :: Takes(q, taker, w.fills, ts, i))
    && w.left == (if k == 0 || w.fills[k - 1].qty == q[k - 1].Remaining() then q[k..]
                  else assert Takes(q, taker, w.fills, ts, k - 1); [q[k - 1].Take(w.fills[k - 1].qty)] + q[k..])
  }

  lemma {:induction false} WalkTakesPrefix(q: seq<Ticket>, taker: Ticket, respectPrice: bool, ts: u64)
    requires forall t | t in q :: t.filledQty < t.qty
    ensures TakesPrefix(q, taker, Walk(q, taker, respectPrice, ts), ts)
    decreases |q|
  {
    if !(taker.Filled() || q == [] || (respectPrice && !Crosses(taker, q[0].price))) {
      assert q[0] in q;
      var x := Min(taker.Remaining(), q[0].Remaining());
      if q[0].Take(x).Filled() {
        WalkTakesPrefix(q[1..], taker.Take(x), respectPrice, ts);
        WalkPrefixStep(q, taker, x, Walk(q[1..], taker.Take(x), respectPrice, ts), ts);
      }
    }
  }

  lemma WalkPrefixStep(q: seq<Ticket>, taker: Ticket, x: u32, w: Swept, ts: u64)
    requires q != [] && 0 < x == q[0].Remaining() && x <= taker.Remaining()
    requires TakesPrefix(q[1..], taker.Take(x), w, ts)
    ensures TakesPrefix(q, taker, w.(fills := [FillOf(q[0], taker, q[0].price, x, ts)] + w.fills), ts)
  {
    var fills := [FillOf(q[0], taker, q[0].price, x, ts)] + w.fills;
    forall i | 0 <= i < |fills| ensures Takes(q, taker, fills, ts, i) {
      if i > 0 {
        assert Takes(q[1..], taker.Take(x), w.fills, ts, i - 1);
      }
    }
    assert q[1..][|w.fills|..] == q[|fills|..];
    if w.fills != [] {
      assert Takes(q[1..], taker.Take(x), w.fills, ts, |w.fills| - 1);
    }
  }

  /** The volume traded is what the taker received; trades stay inside the limit; a taker that is not filled has
      exhausted the queue or meets a head price outside its limit. */
  lemma {:induction false} WalkExhausts(q: seq<Ticket>, taker: Ticket, respectPrice: bool, ts: u64)
    requires forall t | t in q :: t.filledQty < t.qty
    ensures var w := Walk(q, taker, respectPrice, ts);
            && w.taker.filledQty == taker.filledQty + Volume(w.fills)
            && (respectPrice ==> forall f | f in w.fills :: Crosses(taker, f.price))
            && (w.taker.Filled() || w.left == [] || (respectPrice && !Crosses(taker, w.left[0].price)))
    decreases |q|
  {
    if !(taker.Filled() || q == [] || (respectPrice && !Crosses(taker, q[0].price))) {
      assert q[0] in q;
      var x := Min(taker.Remaining(), q[0].Remaining());
      if q[0].Take(x).Filled() {
        WalkExhausts(q[1..], taker.Take(x), respectPrice, ts);
      }
    }
  }

  /** Price-time priority for every incoming order: its fills use up a prefix of the opposite side in priority order,
      never trade outside the limit, and stop early only when no eligible order is left. */
  lemma MatchTakesPriorityPrefix(l: Ladder, taker: Ticket, respectPrice: bool, ts: u64)
    requires WellFormed(l, taker.side.Opposite())
    ensures var m := Match(l, taker, respectPrice, ts);
            var q := Queue(l, taker.side);
            && Sorted(q, taker.side)
            && TakesPrefix(q, taker, WalkOf(l, taker, respectPrice, ts), ts)
            && m.taker.filledQty == taker.filledQty + Volume(m.fills)
            && (respectPrice ==> forall f | f in m.fills :: Crosses(taker, f.price))
            && (!m.taker.Filled() ==>
                  forall p | p in m.ladder :: respectPrice && !Crosses(taker, p))
  {
    hide Match, Queue, Walk, Sorted, TakesPrefix, Volume;
    var q := Queue(l, taker.side);
    QueueSorted(l, taker.side, taker.side.Opposite());
    forall t | t in q ensures t.filledQty < t.qty {
      assert LevelOk(l[t.price], taker.side.Opposite(), t.price);
    }
    MatchIsWalk(l, taker, respectPrice, ts);
    WalkTakesPrefix(q, taker, respectPrice, ts);
    WalkExhausts(q, taker, respectPrice, ts);
    MatchStopsAtBest(l, taker, respectPrice, ts);
  }

  /** A taker that stops unfilled crosses no level that is left, if it has a limit, and otherwise leaves none. */
  lemma MatchStopsAtBest(l: Ladder, taker: Ticket, respectPrice: bool, ts: u64)
    requires WellFormed(l, taker.side.Opposite())
    ensures var m := Match(l, taker, respectPrice, ts);
            !m.taker.Filled() ==> forall p | p in m.ladder :: respectPrice && !Crosses(taker, p)
  {
  }
}
