/** The matching engine on the slab (src/MatchingEngine.cpp): every operation computes the corresponding function on
    price ladders, keeps the book and the free list intact, and gives back exactly the slots it stops using. */
module MatchingEngines {
  import opened Protocol
  import opened Ladders
  import opened Slab
  import opened PriceLevels
  import opened OrderBooks
  import BookInvariants

  /** Memory after slots `r` and `a` have each been filled by `q`. */
  function Traded(mem: Mem, r: int, a: int, q: u32): Mem
    requires 0 <= r < |mem| && 0 <= a < |mem| && r != a
    requires q <= mem[r].ticket.Remaining() && q <= mem[a].ticket.Remaining()
  {
    mem[r := mem[r].(ticket := mem[r].ticket.Take(q))][a := mem[a].(ticket := mem[a].ticket.Take(q))]
  }

  /** Ids, prices and sides are all the index depends on. */
  lemma IndexFrame(mem: Mem, mem': Mem, shape: Shape, orderMap: map<u64, int>, resting: set<int>)
    requires IndexOk(mem, shape, orderMap, resting) && |mem'| == |mem|
    requires forall a | a in resting && 0 <= a < |mem| ::
               var t, t' := mem[a].ticket, mem'[a].ticket;
               t'.orderId == t.orderId && t'.price == t.price && t'.side == t.side
    ensures IndexOk(mem', shape, orderMap, resting)
  {
    forall a | a in resting ensures Listed(mem', shape, orderMap, a) {
      assert Listed(mem, shape, orderMap, a);
    }
    forall side, p ensures ChainRests(shape, resting, side, p) {
      assert ChainRests(shape, resting, side, p);
    }
  }

  /** A half none of whose slots is written stays as it is. */
  lemma HalfUntouched(mem: Mem, mem': Mem, at: map<u32, PriceLevel>, chains: Chains, side: Side)
    requires HalfOk(mem, at, chains, side, NULL) && |mem'| == |mem|
    requires forall p, i | p in chains && 0 <= i < |chains[p]| ::
             0 <= chains[p][i] < |mem| && mem'[chains[p][i]] == mem[chains[p][i]]
    ensures HalfOk(mem', at, chains, side, NULL)
    ensures ChainsInMem(mem, chains) && ChainsInMem(mem', chains) && LadderOf(mem', chains) == LadderOf(mem, chains)
  {
    HalfInMem(mem, at, chains, side, NULL);
    forall p | p in at ensures Sound(mem', at[p], chains[p], side, p, NULL) {
      assert Sound(mem, at[p], chains[p], side, p, NULL);
      SoundFrame(mem, mem', at[p], chains[p], side, p, NULL);
    }
    HalfInMem(mem', at, chains, side, NULL);
    forall p | p in chains ensures Tickets(mem', chains[p]) == Tickets(mem, chains[p]) {
      TicketsFrame(mem, mem', chains[p]);
    }
    LadderSame(mem, mem', chains);
  }

  /** Filling the front order and decreasing the cached total by the same amount keeps the level exact: the saturating
      branch of the decrease is never taken. */
  lemma FillFrontLevel(mem: Mem, mem': Mem, lv: PriceLevel, s: seq<int>, side: Side, p: u32, q: u32)
    requires Sound(mem, lv, s, side, p, NULL) && q <= mem[s[0]].ticket.Remaining() && |mem'| == |mem|
    requires mem'[s[0]] == mem[s[0]].(ticket := mem[s[0]].ticket.Take(q))
    requires forall i | 0 < i < |s| :: mem'[s[i]] == mem[s[i]]
    ensures q <= lv.totalQty
    ensures Sound(mem', DecreaseTotalQty(lv, q), s, side, p, s[0])
    ensures Tickets(mem', s) == [mem[s[0]].ticket.Take(q)] + Tickets(mem, s)[1..]
    ensures mem[s[0]].ticket.Take(q).filledQty < mem[s[0]].ticket.qty ==>
              Sound(mem', DecreaseTotalQty(lv, q), s, side, p, NULL)
  {
    var t, t' := Tickets(mem, s), Tickets(mem', s);
    assert t' == [t[0].Take(q)] + t[1..];
    assert t == [t[0]] + t[1..];
  }

  /** The slot that the book must excuse after a trade: the maker, if it is now filled. */
  function Excused(mem: Mem, r: int): int
    requires 0 <= r < |mem|
  {
    if mem[r].ticket.Filled() then r else NULL
  }

  /** From `mem` to `mem'` the front order at price `p` is filled by `q` and no other chained slot is written. */
  ghost predicate FrontFilled(mem: Mem, mem': Mem, chains: Chains, p: u32, q: u32) {
    && |mem'| == |mem| && p in chains && InMem(mem, chains[p]) && chains[p] != []
    && q <= mem[chains[p][0]].ticket.Remaining()
    && mem'[chains[p][0]] == mem[chains[p][0]].(ticket := mem[chains[p][0]].ticket.Take(q))
    && forall x, i | x in chains && 0 <= i < |chains[x]| && (x != p || i != 0) ::
         0 <= chains[x][i] < |mem| && mem'[chains[x][i]] == mem[chains[x][i]]
  }

  lemma FillFrontHalf(mem: Mem, mem': Mem, at: map<u32, PriceLevel>, chains: Chains, side: Side, p: u32, q: u32)
    requires HalfOk(mem, at, chains, side, NULL) && FrontFilled(mem, mem', chains, p, q)
    ensures HalfOk(mem', at[p := DecreaseTotalQty(at[p], q)], chains, side, Excused(mem', chains[p][0]))
    ensures ChainsInMem(mem, chains) && ChainsInMem(mem', chains)
    ensures var l := LadderOf(mem, chains);
            l[p] != [] && q <= l[p][0].Remaining() && LadderOf(mem', chains) == l[p := [l[p][0].Take(q)] + l[p][1..]]
  {
    var at', spare := at[p := DecreaseTotalQty(at[p], q)], Excused(mem', chains[p][0]);
    hide Sound, FrontFilled;
    HalfInMem(mem, at, chains, side, NULL);
    forall x | x in at' ensures Sound(mem', at'[x], chains[x], side, x, spare) {
      FillFrontSound(mem, mem', at, chains, side, p, q, x);
    }
    HalfInMem(mem', at', chains, side, spare);
    FillFrontLadder(mem, mem', chains, p, q);
  }

  lemma FillFrontSound(mem: Mem, mem': Mem, at: map<u32, PriceLevel>, chains: Chains, side: Side, p: u32, q: u32,
                       x: u32)
    requires HalfOk(mem, at, chains, side, NULL) && FrontFilled(mem, mem', chains, p, q) && x in at
    ensures Sound(mem', at[p := DecreaseTotalQty(at[p], q)][x], chains[x], side, x, Excused(mem', chains[p][0]))
  {
    assert Sound(mem, at[x], chains[x], side, x, NULL);
    if x == p {
      FillFrontLevel(mem, mem', at[p], chains[p], side, p, q);
    } else {
      SoundFrame(mem, mem', at[x], chains[x], side, x, NULL);
      assert Sound(mem', at[x], chains[x], side, x, Excused(mem', chains[p][0]));
    }
  }

  lemma FillFrontLadder(mem: Mem, mem': Mem, chains: Chains, p: u32, q: u32)
    requires ChainsInMem(mem, chains) && ChainsInMem(mem', chains) && FrontFilled(mem, mem', chains, p, q)
    ensures var l := LadderOf(mem, chains);
            l[p] != [] && q <= l[p][0].Remaining() && LadderOf(mem', chains) == l[p := [l[p][0].Take(q)] + l[p][1..]]
  {
    var l: Ladder := LadderOf(mem, chains);
    assert Tickets(mem', chains[p]) == [l[p][0].Take(q)] + l[p][1..];
    forall x | x in chains && x != p ensures Tickets(mem', chains[x]) == l[x] {
      assert forall i | 0 <= i < |chains[x]| :: mem'[chains[x][i]] == mem[chains[x][i]];
    }
  }

  /** A trade between the front order at price `p` and the taker in slot `a` keeps the whole book sane. */
  lemma TradeKeeps(mem: Mem, at: map<u32, PriceLevel>, other: map<u32, PriceLevel>, shape: Shape,
                   orderMap: map<u64, int>, resting: set<int>, side: Side, p: u32, a: int, q: u32)
    requires Sane(mem, at, other, shape, orderMap, resting, side, NULL) && p in at
    requires 0 <= a < |mem| && a !in resting && shape.On(side)[p] != []
    requires q <= mem[shape.On(side)[p][0]].ticket.Remaining() && q <= mem[a].ticket.Remaining()
    ensures shape.On(side)[p][0] in resting
    ensures var r := shape.On(side)[p][0];
            var mem' := Traded(mem, r, a, q);
            && Sane(mem', at[p := DecreaseTotalQty(at[p], q)], other, shape, orderMap, resting, side, Excused(mem', r))
            && var b := BookOf(mem, shape);
               var l := b.On(side);
               BookOf(mem', shape) == b.With(side, l[p := [l[p][0].Take(q)] + l[p][1..]])
  {
    hide Sound, IndexOk, LadderOf;
    ChainFacts(mem, at, other, shape, orderMap, resting, side, NULL, side, p);
    var r := shape.On(side)[p][0];
    var mem' := Traded(mem, r, a, q);
    forall x, y, i | y in shape.On(x) && 0 <= i < |shape.On(x)[y]| && (x != side || y != p || i != 0)
      ensures 0 <= shape.On(x)[y][i] < |mem| && mem'[shape.On(x)[y][i]] == mem[shape.On(x)[y][i]]
    {
      ChainFacts(mem, at, other, shape, orderMap, resting, side, NULL, x, y);
    }
    FillFrontHalf(mem, mem', at, shape.On(side), side, p, q);
    HalfUntouched(mem, mem', other, shape.On(side.Opposite()), side.Opposite());
    TradedNames(mem, r, a, q);
    IndexFrame(mem, mem', shape, orderMap, resting);
  }

  lemma TradedNames(mem: Mem, r: int, a: int, q: u32)
    requires 0 <= r < |mem| && 0 <= a < |mem| && r != a
    requires q <= mem[r].ticket.Remaining() && q <= mem[a].ticket.Remaining()
    ensures forall x | 0 <= x < |mem| ::
              var t, t' := mem[x].ticket, Traded(mem, r, a, q)[x].ticket;
              t'.orderId == t.orderId && t'.price == t.price && t'.side == t.side
  {
  }

  /** Writes to slots that do not rest leave the book as it is. */
  lemma SaneFrame(mem: Mem, mem': Mem, at: map<u32, PriceLevel>, other: map<u32, PriceLevel>, shape: Shape,
                  orderMap: map<u64, int>, resting: set<int>, side: Side)
    requires Sane(mem, at, other, shape, orderMap, resting, side, NULL) && |mem'| == |mem|
    requires forall x | x in resting && 0 <= x < |mem| :: mem'[x] == mem[x]
    ensures Sane(mem', at, other, shape, orderMap, resting, side, NULL)
    ensures BookOf(mem', shape) == BookOf(mem, shape)
  {
    forall x, y, i | y in shape.On(x) && 0 <= i < |shape.On(x)[y]|
      ensures 0 <= shape.On(x)[y][i] < |mem| && mem'[shape.On(x)[y][i]] == mem[shape.On(x)[y][i]]
    {
      ChainFacts(mem, at, other, shape, orderMap, resting, side, NULL, x, y);
    }
    HalfUntouched(mem, mem', at, shape.On(side), side);
    HalfUntouched(mem, mem', other, shape.On(side.Opposite()), side.Opposite());
    IndexFrame(mem, mem', shape, orderMap, resting);
  }

  /** Relinking resting slots does not disturb the free list. */
  lemma FreeApart(mem: Mem, mem': Mem, head: int, free: seq<int>, resting: set<int>)
    requires FreeChain(mem, head, free) && LinksWithin(mem, mem', resting) && resting !! Elements(free)
    ensures FreeChain(mem', head, free)
  {
  }

  /** Consuming from the front is filling the front and pulling it out once it is filled. */
  lemma ConsumeIsPull(l: Ladder, p: u32, q: u32)
    requires p in l && l[p] != [] && q <= l[p][0].Remaining()
    ensures var l' := l[p := [l[p][0].Take(q)] + l[p][1..]];
            Consume(l, p, q) == if l[p][0].Take(q).Filled() then Pull(l', p, 0) else l'
  {
    var s := [l[p][0].Take(q)] + l[p][1..];
    assert s[..0] + s[1..] == l[p][1..];
  }

  function Prepend(done: seq<Fill>, m: Matched): Matched {
    m.(fills := done + m.fills)
  }

  /** One turn of the loop against the best price is one unfolding of `Match`. */
  lemma MatchStep(l: Ladder, t: Ticket, respectPrice: bool, ts: u64, p: u32, done: seq<Fill>)
    requires WellFormed(l, t.side.Opposite()) && IsBest(l.Keys, t.side, p) && !t.Filled()
    requires respectPrice ==> Crosses(t, p)
    ensures LevelOk(l[p], t.side.Opposite(), p) && l[p][0] in l[p]
    ensures var q := Min(t.Remaining(), l[p][0].Remaining());
            && WellFormed(Consume(l, p, q), t.side.Opposite())
            && Prepend(done, Match(l, t, respectPrice, ts))
               == Prepend(done + [FillOf(l[p][0], t, p, q, ts)], Match(Consume(l, p, q), t.Take(q), respectPrice, ts))
  {
    assert LevelOk(l[p], t.side.Opposite(), p) && l[p][0] in l[p];
    hide WellFormed, Consume;
    assert p == BestPrice(l, t.side);
    var q := Min(t.Remaining(), l[p][0].Remaining());
    ConsumeWellFormed(l, t.side.Opposite(), p, q);
    Regroup(done, [FillOf(l[p][0], t, p, q, ts)], Match(Consume(l, p, q), t.Take(q), respectPrice, ts).fills);
  }

  lemma Regroup(a: seq<Fill>, b: seq<Fill>, c: seq<Fill>)
    ensures a + (b + c) == a + b + c
  {
  }

  /** Without a tradable best level the loop is over. */
  lemma MatchEnds(l: Ladder, t: Ticket, respectPrice: bool, ts: u64, done: seq<Fill>)
    requires WellFormed(l, t.side.Opposite())
    requires t.Filled() || l == map[] || (respectPrice && exists p :: IsBest(l.Keys, t.side, p) && !Crosses(t, p))
    ensures Prepend(done, Match(l, t, respectPrice, ts)) == Matched(l, t, done)
  {
  }

  /** The slots in `keep` are as they were. */
  ghost predicate Spared(mem: Mem, mem': Mem, keep: set<int>) {
    |mem'| == |mem| && forall x | x in keep && 0 <= x < |mem| :: mem'[x] == mem[x]
  }

  /** A book none of whose slots is written stays as it is. */
  lemma BookSpared(book: OrderBook, mem: Mem, mem': Mem, keep: set<int>)
    requires book.Valid(mem) && Spared(mem, mem', keep) && book.resting <= keep
    ensures book.Valid(mem') && book.Contents(mem') == book.Contents(mem)
  {
    SaneFrame(mem, mem', book.bids, book.asks, book.shape, book.orderMap, book.resting, BUY);
  }

  class MatchingEngine {
    const pool: SlabPool
    const book: OrderBook
    var fills: seq<Fill>
    var currentSeq: u64

    /** The book is intact, the free list is intact, and no resting slot is free. */
    ghost predicate Valid()
      reads pool, book
    {
      pool.Valid() && book.Valid(pool.cells) && book.resting <= pool.Leased() && |pool.cells| < TWO_32
    }

    /** The slots in use by someone else: another engine on the same pool, or an order on its way in. */
    ghost function Foreign(): set<int>
      reads pool, book
    {
      pool.Leased() - book.resting
    }

    ghost function Contents(): (b: Book)
      requires Valid()
      reads pool, book
      ensures BookOk(b)
    {
      SaneBookOk(pool.cells, book.bids, book.asks, book.shape, book.orderMap, book.resting, BUY);
      book.Contents(pool.cells)
    }

    constructor (pool: SlabPool)
      requires pool.Valid() && |pool.cells| < TWO_32
      ensures Valid() && this.pool == pool && fresh(book) && Contents() == EMPTY_BOOK && fills == []
      ensures book.resting == {}
    {
      this.pool := pool;
      book := new OrderBook();
      fills, currentSeq := [], 0;
    }

    /** Fill both orders and record the trade. */
    method ExecuteTrade(r: int, a: int, price: u32, q: u32)
      requires 0 <= r < |pool.cells| && 0 <= a < |pool.cells| && r != a
      requires q <= pool.cells[r].ticket.Remaining() && q <= pool.cells[a].ticket.Remaining()
      modifies this`fills, pool`cells
      ensures pool.cells == Traded(old(pool.cells), r, a, q)
      ensures fills == old(fills) + [FillOf(old(pool.cells[r].ticket), old(pool.cells[a].ticket), price, q, currentSeq)]
      ensures var f, maker, taker := fills[|old(fills)|], old(pool.cells[r].ticket), old(pool.cells[a].ticket);
              && f.buyOrderId == (if taker.side == BUY then taker.orderId else maker.orderId)
              && f.sellOrderId == (if taker.side == SELL then taker.orderId else maker.orderId)
              && f.price == price && f.qty == q && f.timestamp == currentSeq && f.symbolPacked == taker.symbolPacked
              && pool.cells[r].ticket == maker.(filledQty := maker.filledQty + q)
              && pool.cells[a].ticket == taker.(filledQty := taker.filledQty + q)
    {
      var maker, taker := pool.cells[r].ticket, pool.cells[a].ticket;
      pool.cells := pool.cells[r := pool.cells[r].(ticket := maker.Take(q))];
      pool.cells := pool.cells[a := pool.cells[a].(ticket := taker.Take(q))];
      fills := fills + [FillOf(maker, taker, price, q, currentSeq)];
    }

    /** Trade against the front order `r` of the level at price `p`, and take the volume off the level's total. */
    method TradeFront(r: int, a: int, side: Side, p: u32, q: u32)
      requires 0 <= r < |pool.cells| && 0 <= a < |pool.cells| && r != a && p in book.On(side)
      requires q <= pool.cells[r].ticket.Remaining() && q <= pool.cells[a].ticket.Remaining()
      modifies this`fills, pool`cells, book`bids, book`asks
      ensures pool.cells == Traded(old(pool.cells), r, a, q)
      ensures fills == old(fills) + [FillOf(old(pool.cells[r].ticket), old(pool.cells[a].ticket), p, q, currentSeq)]
      ensures book.On(side) == old(book.On(side))[p := DecreaseTotalQty(old(book.On(side)[p]), q)]
      ensures book.On(side.Opposite()) == old(book.On(side.Opposite()))
    {
      ExecuteTrade(r, a, p, q);
      if side.BUY? {
        book.bids := book.bids[p := DecreaseTotalQty(book.bids[p], q)];
      } else {
        book.asks := book.asks[p := DecreaseTotalQty(book.asks[p], q)];
      }
    }

    ghost predicate ValidBut(side: Side, spare: int)
      reads this, pool, book
    {
      && pool.Valid() && book.resting <= pool.Leased() && |pool.cells| < TWO_32
      && book.ValidBut(pool.cells, side, spare)
    }

    /** Return a slot that is leased and does not rest. */
    method Free(a: int)
      requires Valid() && a in Foreign()
      modifies pool
      ensures Valid() && Foreign() == old(Foreign()) - {a} && pool.Leased() == old(pool.Leased()) - {a}
      ensures |pool.cells| == old(|pool.cells|)
      ensures forall x | 0 <= x < |pool.cells| && x != a :: pool.cells[x] == old(pool.cells[x])
      ensures Contents() == old(Contents())
      ensures Spared(old(pool.cells), pool.cells, old(Foreign()) - {a})
    {
      ghost var mem := pool.cells;
      pool.Deallocate(a);
      SaneFrame(mem, pool.cells, book.bids, book.asks, book.shape, book.orderMap, book.resting, BUY);
    }

    /** Take a filled front order out of the book. */
    method Unchain(r: int, ghost side: Side, ghost p: u32)
      requires ValidBut(side, r)
      requires r in book.resting && 0 <= r < |pool.cells|
      requires pool.cells[r].ticket.side == side && pool.cells[r].ticket.price == p
      requires p in book.shape.On(side) && book.shape.On(side)[p] != [] && book.shape.On(side)[p][0] == r
      modifies book, pool`cells
      ensures Valid() && Foreign() == old(Foreign()) + {r} && |pool.cells| == old(|pool.cells|)
      ensures forall x | 0 <= x < |pool.cells| && x !in old(book.resting) :: pool.cells[x] == old(pool.cells[x])
      ensures var b := old(book.Contents(pool.cells));
              Contents() == b.With(side, Pull(b.On(side), p, 0))
    {
      hide HalfOk, IndexOk, LadderOf, FreeChain;
      ghost var mem, chain := pool.cells, book.shape.On(side)[p];
      ChainFacts(mem, book.On(side), book.On(side.Opposite()), book.shape, book.orderMap, book.resting, side, r,
                 side, p);
      ghost var k := book.RemoveOrder(pool, r, r);
      assert k == 0 by {
        assert chain[k] == chain[0];
      }
      FreeApart(mem, pool.cells, pool.freeHead, pool.free, old(book.resting));
    }

    /** Take a filled front order out of the book and free its slot. */
    method Retire(r: int, ghost side: Side, ghost p: u32)
      requires ValidBut(side, r)
      requires r in book.resting && 0 <= r < |pool.cells|
      requires pool.cells[r].ticket.side == side && pool.cells[r].ticket.price == p
      requires p in book.shape.On(side) && book.shape.On(side)[p] != [] && book.shape.On(side)[p][0] == r
      modifies book, pool
      ensures Valid() && Foreign() == old(Foreign()) && |pool.cells| == old(|pool.cells|)
      ensures forall x | 0 <= x < |pool.cells| && x !in old(book.resting) :: pool.cells[x] == old(pool.cells[x])
      ensures var b := old(book.Contents(pool.cells));
              Contents() == b.With(side, Pull(b.On(side), p, 0))
    {
      hide OrderBooks.Sane, Slab.FreeChain;
      Unchain(r, side, p);
      assert Foreign() - {r} == old(Foreign());
      Free(r);
    }

    /** After a trade the front order stays, or is retired if it is filled. */
    method Settle(r: int, ghost side: Side, ghost p: u32)
      requires 0 <= r < |pool.cells| && ValidBut(side, Excused(pool.cells, r))
      requires r in book.resting && pool.cells[r].ticket.side == side && pool.cells[r].ticket.price == p
      requires p in book.shape.On(side) && book.shape.On(side)[p] != [] && book.shape.On(side)[p][0] == r
      modifies book, pool
      ensures Valid() && Foreign() == old(Foreign()) && |pool.cells| == old(|pool.cells|)
      ensures forall x | 0 <= x < |pool.cells| && x !in old(book.resting) :: pool.cells[x] == old(pool.cells[x])
      ensures var b := old(book.Contents(pool.cells));
              Contents() == if old(pool.cells[r].ticket.Filled()) then b.With(side, Pull(b.On(side), p, 0)) else b
    {
      if pool.cells[r].ticket.Filled() {
        Retire(r, side, p);
      }
    }

    /** The front order of a level rests, is not the taker, and is the head of that level in the ladder. */
    lemma FrontReady(side: Side, p: u32)
      requires Valid() && p in book.On(side)
      ensures var r := book.On(side)[p].head;
              && r in book.resting && 0 <= r < |pool.cells|
              && pool.cells[r].ticket.side == side && pool.cells[r].ticket.price == p && !pool.cells[r].ticket.Filled()
              && p in book.shape.On(side) && book.shape.On(side)[p] != [] && book.shape.On(side)[p][0] == r
              && p in Contents().On(side) && Contents().On(side)[p] != []
              && Contents().On(side)[p][0] == pool.cells[r].ticket
    {
      assert book.ValidBut(pool.cells, side, NULL);
      assert Sound(pool.cells, book.On(side)[p], book.shape.On(side)[p], side, p, NULL);
      ChainFacts(pool.cells, book.On(side), book.On(side.Opposite()), book.shape, book.orderMap, book.resting, side,
                 NULL, side, p);
    }

    /** What the slab and the book look like between the trade and its settlement. */
    lemma TradeMid(a: int, side: Side, p: u32, q: u32)
      requires Valid() && a in Foreign() && p in book.On(side) && 0 <= a < |pool.cells|
      requires 0 <= book.On(side)[p].head < |pool.cells| && book.On(side)[p].head != a
      requires q <= pool.cells[book.On(side)[p].head].ticket.Remaining() && q <= pool.cells[a].ticket.Remaining()
      ensures var r := book.On(side)[p].head;
              var mem := Traded(pool.cells, r, a, q);
              && FreeChain(mem, pool.freeHead, pool.free)
              && Sane(mem, book.On(side)[p := DecreaseTotalQty(book.On(side)[p], q)], book.On(side.Opposite()),
                      book.shape, book.orderMap, book.resting, side, Excused(mem, r))
              && var b := BookOf(mem, book.shape);
                 && p in b.On(side) && b.On(side)[p] != []
                 && (if mem[r].ticket.Filled() then b.With(side, Pull(b.On(side), p, 0)) else b)
                    == (FrontReady(side, p); Contents().With(side, Consume(Contents().On(side), p, q)))
    {
      hide HalfOk, IndexOk, LadderOf, Consume, Pull, WellFormed;
      FrontReady(side, p);
      TradeKeeps(pool.cells, book.On(side), book.On(side.Opposite()), book.shape, book.orderMap, book.resting, side,
                 p, a, q);
      ConsumeIsPull(Contents().On(side), p, q);
      FreeChainFrame(pool.cells, Traded(pool.cells, book.On(side)[p].head, a, q), pool.freeHead, pool.free);
    }

    /** Trade the taker in slot `a` with the front order `r` at price `p`; a filled maker is still linked. */
    method TradeFirst(r: int, a: int, side: Side, p: u32, q: u32)
      requires Valid() && a in Foreign() && p in book.On(side) && 0 <= a < |pool.cells|
      requires r == book.On(side)[p].head && 0 <= r < |pool.cells| && r != a
      requires q <= pool.cells[r].ticket.Remaining() && q <= pool.cells[a].ticket.Remaining()
      modifies this`fills, pool`cells, book`bids, book`asks
      ensures pool.cells == Traded(old(pool.cells), r, a, q) && ValidBut(side, Excused(pool.cells, r))
      ensures Foreign() == old(Foreign()) && book.resting == old(book.resting) && book.shape == old(book.shape)
      ensures var l, b := old(Contents()).On(side), BookOf(pool.cells, book.shape);
              && p in l && l[p] != [] && l[p][0] == old(pool.cells[r].ticket) && p in b.On(side) && b.On(side)[p] != []
              && fills == old(fills) + [FillOf(l[p][0], old(pool.cells[a].ticket), p, q, currentSeq)]
              && (if pool.cells[r].ticket.Filled() then b.With(side, Pull(b.On(side), p, 0)) else b)
                 == old(Contents()).With(side, Consume(l, p, q))
    {
      hide OrderBooks.Sane, Slab.FreeChain, Ladders.Consume, Ladders.WellFormed, OrderBooks.Pull;
      FrontReady(side, p);
      TradeMid(a, side, p, q);
      TradeFront(r, a, side, p, q);
    }

    /** One turn of the match loop: trade the taker in slot `a` with the front order at price `p`. */
    method TradeOnce(a: int, p: u32) returns (q: u32)
      requires Valid() && a in Foreign()
      requires var t := pool.cells[a].ticket; !t.Filled() && p in book.On(t.side.Opposite())
      modifies this`fills, pool, book
      ensures Valid() && Foreign() == old(Foreign()) && |pool.cells| == old(|pool.cells|)
      ensures var t := old(pool.cells[a].ticket);
              var opp, b := t.side.Opposite(), old(Contents());
              && p in b.On(opp) && b.On(opp)[p] != [] && q == Min(t.Remaining(), b.On(opp)[p][0].Remaining())
              && pool.cells[a] == old(pool.cells[a]).(ticket := t.Take(q))
              && fills == old(fills) + [FillOf(b.On(opp)[p][0], t, p, q, currentSeq)]
              && Contents() == b.With(opp, Consume(b.On(opp), p, q))
      ensures Spared(old(pool.cells), pool.cells, old(Foreign()) - {a})
    {
      hide OrderBooks.Sane, Slab.FreeChain, Ladders.Consume, Ladders.WellFormed, OrderBooks.Pull;
      var t := pool.cells[a].ticket;
      var opp := t.side.Opposite();
      FrontReady(opp, p);
      var r := book.On(opp)[p].head;
      q := Min(t.Remaining(), pool.cells[r].ticket.Remaining());
      TradeFirst(r, a, opp, p, q);
      Settle(r, opp, p);
    }

    lemma SameKeys(side: Side)
      requires Valid()
      ensures Contents().On(side).Keys == book.On(side).Keys && 0 !in book.On(side)
    {
    }

    /** One turn of the match loop, or none when the best opposite price is out of reach. Price 0 stands for an empty
        side, which is exact because no level sits at price 0. */
    method MatchTurn(a: int, respectPrice: bool, ghost done: seq<Fill>) returns (traded: bool, ghost made: seq<Fill>)
      requires Valid() && a in Foreign() && !pool.cells[a].ticket.Filled()
      modifies this`fills, pool, book
      ensures Valid() && Foreign() == old(Foreign()) && |pool.cells| == old(|pool.cells|)
      ensures var t, b := old(pool.cells[a].ticket), old(Contents());
              var t' := pool.cells[a].ticket;
              var opp := t.side.Opposite();
              && pool.cells[a] == old(pool.cells[a]).(ticket := t') && t' == t.(filledQty := t'.filledQty)
              && fills == old(fills) + made && Contents() == b.With(opp, Contents().On(opp))
              && (traded ==> t'.Remaining() < t.Remaining())
              && Prepend(done, Match(b.On(opp), t, respectPrice, currentSeq))
                 == if traded then Prepend(done + made, Match(Contents().On(opp), t', respectPrice, currentSeq))
                    else Matched(Contents().On(opp), t', done + made)
      ensures Spared(old(pool.cells), pool.cells, old(Foreign()) - {a})
    {
      hide OrderBooks.Sane, Slab.FreeChain, Ladders.WellFormed, Ladders.Match, Ladders.Consume;
      var t := pool.cells[a].ticket;
      var opp := t.side.Opposite();
      ghost var l := Contents().On(opp);
      SameKeys(opp);
      var restPrice := book.GetBest(opp);
      if restPrice == 0 || (respectPrice && !Crosses(t, restPrice)) {
        MatchEnds(l, t, respectPrice, currentSeq, done);
        return false, [];
      }
      MatchStep(l, t, respectPrice, currentSeq, restPrice, done);
      var q := TradeOnce(a, restPrice);
      return true, [FillOf(l[restPrice][0], t, restPrice, q, currentSeq)];
    }

    /** The match loop: computes `Match` against the opposite side. */
    method MatchOneSide(a: int, respectPrice: bool)
      requires Valid() && a in Foreign()
      modifies this`fills, pool, book
      ensures Valid() && Foreign() == old(Foreign()) && |pool.cells| == old(|pool.cells|)
      ensures var t, b := old(pool.cells[a].ticket), old(Contents());
              var m := Match(b.On(t.side.Opposite()), t, respectPrice, currentSeq);
              && Contents() == b.With(t.side.Opposite(), m.ladder)
              && pool.cells[a] == old(pool.cells[a]).(ticket := m.taker)
              && fills == old(fills) + m.fills
      ensures Spared(old(pool.cells), pool.cells, old(Foreign()) - {a})
    {
      hide OrderBooks.Sane, Slab.FreeChain, Ladders.WellFormed, Ladders.Match;
      ghost var opp := pool.cells[a].ticket.side.Opposite();
      ghost var cell, b := pool.cells[a], Contents();
      ghost var want := Match(b.On(opp), cell.ticket, respectPrice, currentSeq);
      ghost var done: seq<Fill> := [];
      while !pool.cells[a].ticket.Filled()
        invariant Valid() && Foreign() == old(Foreign()) && |pool.cells| == old(|pool.cells|)
        invariant pool.cells[a] == cell.(ticket := cell.ticket.(filledQty := pool.cells[a].ticket.filledQty))
        invariant Contents() == b.With(opp, Contents().On(opp))
        invariant want == Prepend(done, Match(Contents().On(opp), pool.cells[a].ticket, respectPrice, currentSeq))
        invariant fills == old(fills) + done
        invariant Spared(old(pool.cells), pool.cells, old(Foreign()) - {a})
        decreases pool.cells[a].ticket.Remaining()
      {
        var traded;
        ghost var made;
        traded, made := MatchTurn(a, respectPrice, done);
        Regroup(old(fills), done, made);
        done := done + made;
        if !traded { return; }
      }
      MatchEnds(Contents().On(opp), pool.cells[a].ticket, respectPrice, currentSeq, done);
    }

    lemma RoomForOne(a: int)
      requires Valid() && a in Foreign()
      ensures 0 <= a < |pool.cells| && |book.resting| + 1 < TWO_32
    {
      SlotsCount(|pool.cells|);
      SubsetCount(book.resting + {a}, Slots(|pool.cells|));
    }

    /** Rest an unfilled order. Its id is not resting, so the book takes it. */
    method RestOrder(a: int)
      requires Valid() && a in Foreign()
      requires var t := pool.cells[a].ticket; t.price != 0 && !t.Filled() && t.orderId !in book.orderMap
      modifies pool, book
      ensures Valid() && Foreign() == old(Foreign()) - {a} && |pool.cells| == old(|pool.cells|)
      ensures var t, b := old(pool.cells[a].ticket), old(Contents());
              Contents() == b.With(t.side, Rest(b.On(t.side), t))
      ensures Spared(old(pool.cells), pool.cells, old(Foreign()) - {a})
    {
      RoomForOne(a);
      ghost var mem := pool.cells;
      var ok := book.AddOrder(pool, a);
      FreeApart(mem, pool.cells, pool.freeHead, pool.free, book.resting);
    }

    lemma KnownId(id: u64)
      requires Valid()
      ensures Contains(Contents(), id) <==> id in book.orderMap
      ensures id in book.orderMap ==> Find(Contents(), id) == pool.cells[book.orderMap[id]].ticket
    {
      LookUp(pool.cells, book.bids, book.asks, book.shape, book.orderMap, book.resting, BUY, id);
    }

    /** LIMIT: match inside the limit, then rest what is left or free the slot. */
    method MatchLimit(a: int)
      requires Valid() && a in Foreign() && pool.cells[a].ticket.price != 0
      requires pool.cells[a].ticket.orderId !in book.orderMap
      modifies this`fills, pool, book
      ensures Valid() && Foreign() == old(Foreign()) - {a} && |pool.cells| == old(|pool.cells|)
      ensures var t, b := old(pool.cells[a].ticket), old(Contents());
              var s := Submit(b, t, LIMIT, currentSeq);
              !Contains(b, t.orderId) && Contents() == s.book && fills == old(fills) + s.fills
      ensures Spared(old(pool.cells), pool.cells, old(Foreign()) - {a})
    {
      hide OrderBooks.Sane, Slab.FreeChain, Ladders.Match, Ladders.WellFormed;
      KnownId(pool.cells[a].ticket.orderId);
      BookInvariants.MatchAddsNoId(Contents(), pool.cells[a].ticket, true, currentSeq, pool.cells[a].ticket.orderId);
      MatchOneSide(a, true);
      KnownId(pool.cells[a].ticket.orderId);
      if !pool.cells[a].ticket.Filled() {
        RestOrder(a);
      } else {
        Free(a);
      }
    }

    /** MARKET and IOC: match, with or without the limit, and free the slot. */
    method MatchAndDrop(a: int, ty: OrderType)
      requires Valid() && a in Foreign() && ty != LIMIT && (ty == IOC ==> pool.cells[a].ticket.price != 0)
      requires pool.cells[a].ticket.orderId !in book.orderMap
      modifies this`fills, pool, book
      ensures Valid() && Foreign() == old(Foreign()) - {a} && |pool.cells| == old(|pool.cells|)
      ensures var t, b := old(pool.cells[a].ticket), old(Contents());
              var s := Submit(b, t, ty, currentSeq);
              Contents() == s.book && fills == old(fills) + s.fills
      ensures Spared(old(pool.cells), pool.cells, old(Foreign()) - {a})
    {
      hide OrderBooks.Sane, Slab.FreeChain, Ladders.Match, Ladders.WellFormed;
      KnownId(pool.cells[a].ticket.orderId);
      MatchOneSide(a, ty != MARKET);
      Free(a);
    }

    /** Submit an order whose slot the caller hands over; an id that is resting is refused. */
    method ProcessOrder(a: int, sequenceNum: u64)
      requires Valid() && (a == NULL || a in Foreign())
      requires a != NULL && pool.cells[a].orderType != MARKET ==> pool.cells[a].ticket.price != 0
      modifies this`fills, this`currentSeq, pool, book
      ensures Valid() && |pool.cells| == old(|pool.cells|)
      ensures a == NULL ==> fills == old(fills) && Contents() == old(Contents()) && Foreign() == old(Foreign())
      ensures a != NULL ==>
                var cell, b := old(pool.cells[a]), old(Contents());
                var s := Submit(b, cell.ticket, cell.orderType, sequenceNum);
                Contents() == s.book && fills == old(fills) + s.fills && Foreign() == old(Foreign()) - {a}
      ensures Spared(old(pool.cells), pool.cells, old(Foreign()) - {a})
    {
      hide OrderBooks.Sane, Slab.FreeChain, Ladders.Match, Ladders.WellFormed;
      if a == NULL {
        return;
      }
      KnownId(pool.cells[a].ticket.orderId);
      if pool.cells[a].ticket.orderId in book.orderMap {
        Free(a);
        return;
      }
      currentSeq := sequenceNum;
      match pool.cells[a].orderType
      case LIMIT => MatchLimit(a);
      case MARKET => MatchAndDrop(a, MARKET);
      case IOC => MatchAndDrop(a, IOC);
    }

    /** Unlink the order with this id, leaving its slot leased; NULL when the id is not resting. */
    method Withdraw(id: u64) returns (a: int)
      requires Valid()
      modifies pool`cells, book
      ensures Valid() && |pool.cells| == old(|pool.cells|)
      ensures a == NULL <==> !Contains(old(Contents()), id)
      ensures a == NULL ==>
                Contents() == old(Contents()) && Foreign() == old(Foreign()) && pool.cells == old(pool.cells)
      ensures a != NULL ==>
                && a !in old(Foreign()) && Foreign() == old(Foreign()) + {a}
                && 0 <= a < |pool.cells| && pool.cells[a].ticket == Find(old(Contents()), id)
                && Contents() == Cancel(old(Contents()), id)
      ensures Spared(old(pool.cells), pool.cells, old(Foreign()))
    {
      hide Slab.FreeChain, OrderBooks.Sane, Ladders.WellFormed, Ladders.Cancel, Ladders.Contains;
      ghost var mem := pool.cells;
      a := book.CancelOrder(pool, id);
      if a != NULL {
        FreeApart(mem, pool.cells, pool.freeHead, pool.free, old(book.resting));
      }
    }

    method CancelOrder(id: u64) returns (found: bool)
      requires Valid()
      modifies pool, book
      ensures Valid() && Foreign() == old(Foreign()) && |pool.cells| == old(|pool.cells|)
      ensures found == Contains(old(Contents()), id) && Contents() == Cancel(old(Contents()), id)
      ensures Spared(old(pool.cells), pool.cells, old(Foreign()))
    {
      hide OrderBooks.Sane, Slab.FreeChain, Ladders.WellFormed, Ladders.Cancel;
      ghost var b := Contents();
      var a := Withdraw(id);
      found := a != NULL;
      if found {
        Free(a);
      } else {
        BookInvariants.CancelAbsent(b, id);
      }
    }

    /** Withdraw, rewrite in place as a LIMIT order, and submit again at the back of its new level. */
    method ModifyOrder(id: u64, newPrice: u32, newQty: u32, sequenceNum: u64) returns (found: bool)
      requires Valid() && newPrice != 0
      modifies this`fills, this`currentSeq, pool, book
      ensures Valid() && Foreign() == old(Foreign()) && |pool.cells| == old(|pool.cells|)
      ensures found == Contains(old(Contents()), id)
      ensures var r := Modify(old(Contents()), id, newPrice, newQty, sequenceNum);
              Contents() == r.book && fills == old(fills) + r.fills
      ensures Spared(old(pool.cells), pool.cells, old(Foreign()))
    {
      hide OrderBooks.Sane, Slab.FreeChain, Ladders.WellFormed, Ladders.Cancel, Ladders.Submit, Ladders.Contains;
      var a := Withdraw(id);
      found := a != NULL;
      if found {
        Rewrite(a, newPrice, newQty);
        ProcessOrder(a, sequenceNum);
      }
    }

    method Rewrite(a: int, newPrice: u32, newQty: u32)
      requires Valid() && a in Foreign()
      modifies pool`cells
      ensures Valid() && Foreign() == old(Foreign()) && |pool.cells| == old(|pool.cells|)
      ensures Contents() == old(Contents())
      ensures pool.cells[a].ticket == old(pool.cells[a].ticket).(price := newPrice, qty := newQty, filledQty := 0)
      ensures pool.cells[a].orderType == LIMIT
      ensures Spared(old(pool.cells), pool.cells, old(Foreign()) - {a})
    {
      ghost var mem := pool.cells;
      var t := pool.cells[a].ticket.(price := newPrice, qty := newQty, filledQty := 0);
      pool.cells := pool.cells[a := pool.cells[a].(ticket := t, orderType := LIMIT)];
      FreeChainFrame(mem, pool.cells, pool.freeHead, pool.free);
      SaneFrame(mem, pool.cells, book.bids, book.asks, book.shape, book.orderMap, book.resting, BUY);
    }

    method DrainFills() returns (out: seq<Fill>)
      modifies this`fills
      ensures out == old(fills) && fills == []
    {
      out, fills := fills, [];
    }
  }
}
