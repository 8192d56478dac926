/** Two maps of price levels and an id map over the same slots (src/OrderBook.cpp, include/core/OrderBook.h). */
module OrderBooks {
  import opened Protocol
  import opened Ladders
  import opened Slab
  import opened PriceLevels

  type Chains = map<u32, seq<int>>

  /** A nonempty exact chain of orders of this side and price, none of them filled except perhaps `spare`. */
  ghost predicate Sound(mem: Mem, lv: PriceLevel, s: seq<int>, side: Side, p: u32, spare: int) {
    && p != 0 && s != [] && LevelExact(mem, lv, s)
    && forall i | 0 <= i < |s| ::
         var t := mem[s[i]].ticket;
         t.price == p && t.side == side && (t.filledQty < t.qty || s[i] == spare)
  }

  /** One side: every level of the map is sound and has its chain. */
  ghost predicate HalfOk(mem: Mem, at: map<u32, PriceLevel>, chains: Chains, side: Side, spare: int) {
    && at.Keys == chains.Keys
    && forall p {:trigger Sound(mem, at[p], chains[p], side, p, spare)} | p in at ::
         Sound(mem, at[p], chains[p], side, p, spare)
  }

  ghost predicate ChainsInMem(mem: Mem, chains: Chains) {
    forall p | p in chains :: InMem(mem, chains[p])
  }

  /** The ladder that the chains spell out. */
  ghost function LadderOf(mem: Mem, chains: Chains): (l: Ladder)
    requires ChainsInMem(mem, chains)
    ensures l.Keys == chains.Keys
  {
    map p | p in chains :: Tickets(mem, chains[p])
  }

  function ChainAt(chains: Chains, p: u32): seq<int> {
    if p in chains then chains[p] else []
  }

  lemma SoundFrame(mem: Mem, mem': Mem, lv: PriceLevel, s: seq<int>, side: Side, p: u32, spare: int)
    requires Sound(mem, lv, s, side, p, spare) && |mem'| == |mem|
    requires forall i | 0 <= i < |s| :: mem'[s[i]] == mem[s[i]]
    ensures Sound(mem', lv, s, side, p, spare) && Tickets(mem', s) == Tickets(mem, s)
  {
    LevelFrame(mem, mem', lv, s);
    TicketsFrame(mem, mem', s);
  }

  lemma HalfInMem(mem: Mem, at: map<u32, PriceLevel>, chains: Chains, side: Side, spare: int)
    requires HalfOk(mem, at, chains, side, spare)
    ensures ChainsInMem(mem, chains)
  {
    forall p | p in chains ensures InMem(mem, chains[p]) {
      assert Sound(mem, at[p], chains[p], side, p, spare);
    }
  }

  /** A level whose slots are not written stays sound. */
  lemma LevelStays(mem: Mem, mem': Mem, at: map<u32, PriceLevel>, chains: Chains, side: Side, spare: int,
                   q: u32, s: seq<int>)
    requires HalfOk(mem, at, chains, side, spare) && Relinked(mem, mem', s) && InMem(mem, s) && q in at
    requires forall i | 0 <= i < |s| :: mem[s[i]].ticket.side != side || mem[s[i]].ticket.price != q
    ensures Sound(mem', at[q], chains[q], side, q, spare)
    ensures InMem(mem, chains[q]) && Tickets(mem', chains[q]) == Tickets(mem, chains[q])
  {
    var c := chains[q];
    assert Sound(mem, at[q], c, side, q, spare);
    forall i | 0 <= i < |c| ensures mem'[c[i]] == mem[c[i]] {
      assert c[i] !in s;
    }
    SoundFrame(mem, mem', at[q], c, side, q, spare);
  }

  /** `spare` can only excuse an order of its own level. */
  lemma SpareElsewhere(mem: Mem, lv: PriceLevel, c: seq<int>, side: Side, q: u32, spare: int)
    requires Sound(mem, lv, c, side, q, spare)
    requires spare == NULL || (0 <= spare < |mem| && mem[spare].ticket.price != q)
    ensures Sound(mem, lv, c, side, q, NULL)
  {
  }

  lemma LadderSame(mem: Mem, mem': Mem, chains: Chains)
    requires ChainsInMem(mem, chains) && ChainsInMem(mem', chains)
    requires forall p | p in chains :: Tickets(mem', chains[p]) == Tickets(mem, chains[p])
    ensures LadderOf(mem', chains) == LadderOf(mem, chains)
  {
  }

  /** Writes to slots of the other side leave a half as it is. */
  lemma HalfFrame(mem: Mem, mem': Mem, at: map<u32, PriceLevel>, chains: Chains, side: Side, spare: int, s: seq<int>)
    requires HalfOk(mem, at, chains, side, spare) && Relinked(mem, mem', s) && InMem(mem, s)
    requires forall i | 0 <= i < |s| :: mem[s[i]].ticket.side != side
    ensures HalfOk(mem', at, chains, side, spare)
    ensures ChainsInMem(mem, chains) && ChainsInMem(mem', chains) && LadderOf(mem', chains) == LadderOf(mem, chains)
  {
    HalfInMem(mem, at, chains, side, spare);
    forall p | p in at ensures Sound(mem', at[p], chains[p], side, p, spare) {
      LevelStays(mem, mem', at, chains, side, spare, p, s);
    }
    HalfInMem(mem', at, chains, side, spare);
    forall p | p in chains ensures Tickets(mem', chains[p]) == Tickets(mem, chains[p]) {
      TicketsFrame(mem, mem', chains[p]);
    }
    LadderSame(mem, mem', chains);
  }

  /** Rewriting the level at price `p` leaves every other level of the half as it is. */
  lemma OthersStay(mem: Mem, mem': Mem, at: map<u32, PriceLevel>, chains: Chains, side: Side, spare: int,
                   p: u32, s: seq<int>)
    requires HalfOk(mem, at, chains, side, spare) && Relinked(mem, mem', s) && InMem(mem, s)
    requires forall i | 0 <= i < |s| :: mem[s[i]].ticket.price == p
    requires spare == NULL || (0 <= spare < |mem| && mem[spare].ticket.price == p)
    ensures HalfOk(mem', at - {p}, chains - {p}, side, NULL)
    ensures ChainsInMem(mem, chains) && ChainsInMem(mem', chains - {p})
    ensures LadderOf(mem', chains - {p}) == LadderOf(mem, chains) - {p}
  {
    forall q | q in at - {p}
      ensures Sound(mem', (at - {p})[q], (chains - {p})[q], side, q, NULL)
      ensures InMem(mem, chains[q]) && Tickets(mem', chains[q]) == Tickets(mem, chains[q])
    {
      LevelStays(mem, mem', at, chains, side, spare, q, s);
      SpareElsewhere(mem', at[q], chains[q], side, q, spare);
    }
    HalfInMem(mem, at, chains, side, spare);
    HalfInMem(mem', at - {p}, chains - {p}, side, NULL);
  }

  /** Adding one sound level to a half. */
  lemma HalfWith(mem: Mem, at: map<u32, PriceLevel>, chains: Chains, side: Side, p: u32, lv: PriceLevel, c: seq<int>)
    requires HalfOk(mem, at, chains, side, NULL) && p !in at && Sound(mem, lv, c, side, p, NULL)
    ensures HalfOk(mem, at[p := lv], chains[p := c], side, NULL)
  {
  }

  lemma LadderWith(mem: Mem, chains: Chains, p: u32, c: seq<int>)
    requires ChainsInMem(mem, chains) && InMem(mem, c)
    ensures ChainsInMem(mem, chains[p := c])
    ensures LadderOf(mem, chains[p := c]) == LadderOf(mem, chains)[p := Tickets(mem, c)]
  {
  }

  /** Replacing the level at price `p`. */
  lemma HalfReplace(mem: Mem, mem': Mem, at: map<u32, PriceLevel>, chains: Chains, side: Side, spare: int,
                    p: u32, s: seq<int>, lv: PriceLevel, c: seq<int>)
    requires HalfOk(mem, at, chains, side, spare) && Relinked(mem, mem', s) && InMem(mem, s)
    requires forall i | 0 <= i < |s| :: mem[s[i]].ticket.price == p
    requires spare == NULL || (0 <= spare < |mem| && mem[spare].ticket.price == p)
    requires Sound(mem', lv, c, side, p, NULL)
    ensures HalfOk(mem', at[p := lv], chains[p := c], side, NULL)
    ensures ChainsInMem(mem, chains) && ChainsInMem(mem', chains[p := c])
    ensures LadderOf(mem', chains[p := c]) == LadderOf(mem, chains)[p := Tickets(mem', c)]
  {
    OthersStay(mem, mem', at, chains, side, spare, p, s);
    HalfWith(mem', at - {p}, chains - {p}, side, p, lv, c);
    LadderWith(mem', chains - {p}, p, c);
    assert (at - {p})[p := lv] == at[p := lv];
    assert (chains - {p})[p := c] == chains[p := c];
    assert (LadderOf(mem, chains) - {p})[p := Tickets(mem', c)] == LadderOf(mem, chains)[p := Tickets(mem', c)];
  }

  /** Take position `k` out of the level at price `p`; an emptied level leaves the ladder. */
  function Pull(l: Ladder, p: u32, k: nat): Ladder
    requires p in l && k < |l[p]|
  {
    var s := l[p][..k] + l[p][k + 1..];
    if s == [] then l - {p} else l[p := s]
  }

  lemma EmptyExact(mem: Mem)
    ensures LevelExact(mem, EMPTY_LEVEL, [])
  {
  }

  /** `m[price].addOrder(order)` on one of the two maps. */
  method PlaceOn(pool: SlabPool, at: map<u32, PriceLevel>, ghost chains: Chains, side: Side, a: int)
    returns (at': map<u32, PriceLevel>, ghost chains': Chains)
    requires HalfOk(pool.cells, at, chains, side, NULL) && 0 <= a < |pool.cells|
    requires var t := pool.cells[a].ticket;
             && t.side == side && t.price != 0 && t.filledQty < t.qty
             && a !in ChainAt(chains, t.price) && |ChainAt(chains, t.price)| + 1 < TWO_32
    modifies pool`cells
    ensures HalfOk(pool.cells, at', chains', side, NULL)
    ensures var t := old(pool.cells[a].ticket);
            && chains' == chains[t.price := ChainAt(chains, t.price) + [a]]
            && Relinked(old(pool.cells), pool.cells, chains'[t.price])
            && ChainsInMem(old(pool.cells), chains) && ChainsInMem(pool.cells, chains')
            && LadderOf(pool.cells, chains') == Rest(LadderOf(old(pool.cells), chains), t)
  {
    var t := pool.cells[a].ticket;
    ghost var s, mem := ChainAt(chains, t.price), pool.cells;
    EmptyExact(mem);
    if t.price in at { assert Sound(mem, at[t.price], chains[t.price], side, t.price, NULL); }
    var lv := if t.price in at then at[t.price] else EMPTY_LEVEL;
    lv := AddOrder(pool, lv, a, s);
    at', chains' := at[t.price := lv], chains[t.price := s + [a]];
    TicketsAppend(mem, s, a);
    TicketsFrame(mem, pool.cells, s + [a]);
    HalfReplace(mem, pool.cells, at, chains, side, NULL, t.price, s + [a], lv, s + [a]);
  }

  /** `it->second.removeOrder(order)` and the erase of an emptied level, on one of the two maps. */
  method TakeFrom(pool: SlabPool, at: map<u32, PriceLevel>, ghost chains: Chains, side: Side, a: int, ghost k: nat,
                  ghost spare: int)
    returns (at': map<u32, PriceLevel>, ghost chains': Chains)
    requires HalfOk(pool.cells, at, chains, side, spare) && 0 <= a < |pool.cells| && (spare == NULL || spare == a)
    requires var t := pool.cells[a].ticket;
             t.side == side && t.price in chains && k < |chains[t.price]| && chains[t.price][k] == a
    modifies pool`cells
    ensures HalfOk(pool.cells, at', chains', side, NULL)
    ensures var p := old(pool.cells[a].ticket.price);
            && chains' == Removed(chains, p, k)
            && Relinked(old(pool.cells), pool.cells, chains[p])
            && ChainsInMem(old(pool.cells), chains) && ChainsInMem(pool.cells, chains')
            && LadderOf(pool.cells, chains') == Pull(LadderOf(old(pool.cells), chains), p, k)
    ensures pool.cells[a].next == NULL && pool.cells[a].prev == NULL
  {
    var p := pool.cells[a].ticket.price;
    ghost var mem := pool.cells;
    assert Sound(mem, at[p], chains[p], side, p, spare);
    var lv := RemoveOrder(pool, at[p], a, chains[p], k);
    at' := if lv.head == NULL then at - {p} else at[p := lv];
    chains' := Removed(chains, p, k);
    HalfTake(mem, pool.cells, at, chains, side, spare, p, k, lv);
  }

  function Removed(chains: Chains, p: u32, k: nat): Chains
    requires p in chains && k < |chains[p]|
  {
    var s := chains[p][..k] + chains[p][k + 1..];
    if s == [] then chains - {p} else chains[p := s]
  }

  lemma HalfTake(mem: Mem, mem': Mem, at: map<u32, PriceLevel>, chains: Chains, side: Side, spare: int,
                 p: u32, k: nat, lv: PriceLevel)
    requires HalfOk(mem, at, chains, side, spare) && p in chains && k < |chains[p]|
    requires spare == NULL || spare == chains[p][k]
    requires Relinked(mem, mem', chains[p]) && LevelExact(mem', lv, chains[p][..k] + chains[p][k + 1..])
    ensures HalfOk(mem', if lv.head == NULL then at - {p} else at[p := lv], Removed(chains, p, k), side, NULL)
    ensures ChainsInMem(mem, chains) && ChainsInMem(mem', Removed(chains, p, k))
    ensures LadderOf(mem', Removed(chains, p, k)) == Pull(LadderOf(mem, chains), p, k)
  {
    var s := chains[p];
    var rest := s[..k] + s[k + 1..];
    assert Sound(mem, at[p], s, side, p, spare);
    TicketsDrop(mem, s, k);
    if rest == [] {
      OthersStay(mem, mem', at, chains, side, spare, p, s);
    } else {
      TicketsFrame(mem, mem', rest);
      RestSound(mem, mem', at[p], lv, s, k, side, p, spare);
      HalfReplace(mem, mem', at, chains, side, spare, p, s, lv, rest);
    }
  }

  lemma RestSound(mem: Mem, mem': Mem, lv: PriceLevel, lv': PriceLevel, s: seq<int>, k: nat, side: Side, p: u32,
                  spare: int)
    requires Sound(mem, lv, s, side, p, spare) && k < |s| && (spare == NULL || spare == s[k])
    requires Relinked(mem, mem', s) && LevelExact(mem', lv', s[..k] + s[k + 1..]) && s[..k] + s[k + 1..] != []
    ensures Sound(mem', lv', s[..k] + s[k + 1..], side, p, NULL)
  {
  }

  datatype Shape = Shape(bids: Chains, asks: Chains) {
    function On(side: Side): Chains {
      if side.BUY? then bids else asks
    }

    function With(side: Side, c: Chains): Shape {
      if side.BUY? then this.(bids := c) else this.(asks := c)
    }
  }

  /** A resting slot is the one its id maps to, and is chained in the level of its price and side. */
  ghost predicate Listed(mem: Mem, shape: Shape, orderMap: map<u64, int>, a: int) {
    && 0 <= a < |mem|
    && var t := mem[a].ticket;
       t.orderId in orderMap && orderMap[t.orderId] == a && a in ChainAt(shape.On(t.side), t.price)
  }

  ghost predicate ChainRests(shape: Shape, resting: set<int>, side: Side, p: u32) {
    forall a | a in ChainAt(shape.On(side), p) :: a in resting
  }

  /** Resting slots, entries of the id map and chained slots are the same slots. */
  ghost predicate IndexOk(mem: Mem, shape: Shape, orderMap: map<u64, int>, resting: set<int>) {
    && (forall a {:trigger Listed(mem, shape, orderMap, a)} | a in resting :: Listed(mem, shape, orderMap, a))
    && (forall id | id in orderMap ::
          orderMap[id] in resting && 0 <= orderMap[id] < |mem| && mem[orderMap[id]].ticket.orderId == id)
    && (forall side, p {:trigger ChainRests(shape, resting, side, p)} :: ChainRests(shape, resting, side, p))
  }

  /** The slots chained at this side and price hold orders of this side and price. */
  ghost predicate AtHome(mem: Mem, shape: Shape, side: Side, p: u32) {
    forall a | a in ChainAt(shape.On(side), p) ::
      0 <= a < |mem| && mem[a].ticket.side == side && mem[a].ticket.price == p
  }

  lemma RestingListed(mem: Mem, shape: Shape, orderMap: map<u64, int>, resting: set<int>, a: int)
    requires IndexOk(mem, shape, orderMap, resting) && a in resting
    ensures Listed(mem, shape, orderMap, a)
  {
  }

  lemma IndexAdd(mem: Mem, mem': Mem, shape: Shape, orderMap: map<u64, int>, resting: set<int>, a: int)
    requires IndexOk(mem, shape, orderMap, resting) && 0 <= a < |mem| && a !in resting
    requires Relinked(mem, mem', ChainAt(shape.On(mem[a].ticket.side), mem[a].ticket.price) + [a])
    requires mem[a].ticket.orderId !in orderMap
    ensures var t := mem[a].ticket;
            var c := shape.On(t.side)[t.price := ChainAt(shape.On(t.side), t.price) + [a]];
            IndexOk(mem', shape.With(t.side, c), orderMap[t.orderId := a], resting + {a})
  {
    var t := mem[a].ticket;
    var c := shape.On(t.side)[t.price := ChainAt(shape.On(t.side), t.price) + [a]];
    var shape', orderMap', resting' := shape.With(t.side, c), orderMap[t.orderId := a], resting + {a};
    forall x | x in resting' ensures Listed(mem', shape', orderMap', x) {
      if x != a { assert Listed(mem, shape, orderMap, x); }
    }
    forall side, p ensures ChainRests(shape', resting', side, p) {
      assert ChainRests(shape, resting, side, p);
    }
  }

  lemma IndexRemove(mem: Mem, mem': Mem, shape: Shape, orderMap: map<u64, int>, resting: set<int>, a: int, k: nat)
    requires IndexOk(mem, shape, orderMap, resting) && a in resting && 0 <= a < |mem|
    requires forall side, p {:trigger AtHome(mem, shape, side, p)} :: AtHome(mem, shape, side, p)
    requires var t := mem[a].ticket;
             && t.price in shape.On(t.side) && k < |shape.On(t.side)[t.price]| && shape.On(t.side)[t.price][k] == a
             && NoDup(shape.On(t.side)[t.price]) && Relinked(mem, mem', shape.On(t.side)[t.price])
    ensures var t := mem[a].ticket;
            IndexOk(mem', shape.With(t.side, Removed(shape.On(t.side), t.price, k)), orderMap - {t.orderId},
                    resting - {a})
  {
    var t := mem[a].ticket;
    var s := shape.On(t.side)[t.price];
    var shape', orderMap', resting' :=
      shape.With(t.side, Removed(shape.On(t.side), t.price, k)), orderMap - {t.orderId}, resting - {a};
    assert Listed(mem, shape, orderMap, a);
    DropMember(s, k);
    forall x | x in resting' ensures Listed(mem', shape', orderMap', x) {
      assert Listed(mem, shape, orderMap, x);
    }
    forall id | id in orderMap' ensures orderMap'[id] in resting' {
      assert mem[orderMap[id]].ticket.orderId == id;
    }
    forall side, p ensures ChainRests(shape', resting', side, p) {
      assert ChainRests(shape, resting, side, p);
      if side == t.side && p == t.price {
        assert forall x | x in ChainAt(shape'.On(side), p) :: x in s[..k] + s[k + 1..];
      } else {
        assert ChainAt(shape'.On(side), p) == ChainAt(shape.On(side), p);
        assert AtHome(mem, shape, side, p);
      }
    }
  }

  lemma DropMember(s: seq<int>, k: nat)
    requires NoDup(s) && k < |s|
    ensures forall x :: x in s[..k] + s[k + 1..] <==> x in s && x != s[k]
  {
  }

  /** The whole book invariant, seen from one side: `at` is the map of `side`, `other` the map of the opposite side,
      and slot `spare` on `side` may hold a filled order. */
  ghost predicate Sane(mem: Mem, at: map<u32, PriceLevel>, other: map<u32, PriceLevel>, shape: Shape,
                       orderMap: map<u64, int>, resting: set<int>, side: Side, spare: int)
  {
    && ChainsInMem(mem, shape.bids) && ChainsInMem(mem, shape.asks)
    && HalfOk(mem, at, shape.On(side), side, spare)
    && HalfOk(mem, other, shape.On(side.Opposite()), side.Opposite(), NULL)
    && IndexOk(mem, shape, orderMap, resting)
    && |resting| < TWO_32
  }

  ghost function BookOf(mem: Mem, shape: Shape): Book
    requires ChainsInMem(mem, shape.bids) && ChainsInMem(mem, shape.asks)
  {
    Book(LadderOf(mem, shape.bids), LadderOf(mem, shape.asks))
  }

  /** A chain is no longer than the book, rests, and holds orders of its own side and price. */
  lemma ChainFacts(mem: Mem, at: map<u32, PriceLevel>, other: map<u32, PriceLevel>, shape: Shape,
                   orderMap: map<u64, int>, resting: set<int>, side: Side, spare: int, x: Side, p: u32)
    requires Sane(mem, at, other, shape, orderMap, resting, side, spare)
    ensures var s := ChainAt(shape.On(x), p);
            && NoDup(s) && InMem(mem, s) && |s| <= |resting|
            && (forall i | 0 <= i < |s| :: s[i] in resting)
            && (forall i | 0 <= i < |s| :: mem[s[i]].ticket.side == x && mem[s[i]].ticket.price == p)
  {
    var s := ChainAt(shape.On(x), p);
    if p in shape.On(x) {
      if x == side {
        assert Sound(mem, at[p], s, side, p, spare);
      } else {
        assert Sound(mem, other[p], s, x, p, NULL);
      }
      assert ChainRests(shape, resting, x, p);
      NoDupCount(s);
      SubsetCount(Elements(s), resting);
    }
  }

  lemma AllAtHome(mem: Mem, at: map<u32, PriceLevel>, other: map<u32, PriceLevel>, shape: Shape,
                  orderMap: map<u64, int>, resting: set<int>, side: Side, spare: int)
    requires Sane(mem, at, other, shape, orderMap, resting, side, spare)
    ensures forall x, p {:trigger AtHome(mem, shape, x, p)} :: AtHome(mem, shape, x, p)
  {
    forall x, p ensures AtHome(mem, shape, x, p) {
      ChainFacts(mem, at, other, shape, orderMap, resting, side, spare, x, p);
    }
  }

  /** Chaining slot `a` on its side keeps the whole book sane. */
  lemma AddKeeps(mem: Mem, mem': Mem, at: map<u32, PriceLevel>, other: map<u32, PriceLevel>, shape: Shape,
                 orderMap: map<u64, int>, resting: set<int>, a: int, at': map<u32, PriceLevel>)
    requires 0 <= a < |mem| && a !in resting && |resting| + 1 < TWO_32 && mem[a].ticket.orderId !in orderMap
    requires Sane(mem, at, other, shape, orderMap, resting, mem[a].ticket.side, NULL)
    requires var t := mem[a].ticket;
             var chains := shape.On(t.side)[t.price := ChainAt(shape.On(t.side), t.price) + [a]];
             && HalfOk(mem', at', chains, t.side, NULL) && Relinked(mem, mem', chains[t.price])
             && ChainsInMem(mem', chains)
             && LadderOf(mem', chains) == Rest(LadderOf(mem, shape.On(t.side)), t)
    ensures var t := mem[a].ticket;
            var shape' := shape.With(t.side, shape.On(t.side)[t.price := ChainAt(shape.On(t.side), t.price) + [a]]);
            && Sane(mem', at', other, shape', orderMap[t.orderId := a], resting + {a}, t.side, NULL)
            && LinksWithin(mem, mem', resting + {a})
            && BookOf(mem', shape') == BookOf(mem, shape).With(t.side, Rest(BookOf(mem, shape).On(t.side), t))
  {
    hide HalfOk, IndexOk, LadderOf;
    var t := mem[a].ticket;
    var s := ChainAt(shape.On(t.side), t.price);
    ChainFacts(mem, at, other, shape, orderMap, resting, t.side, NULL, t.side, t.price);
    HalfFrame(mem, mem', other, shape.On(t.side.Opposite()), t.side.Opposite(), NULL, s + [a]);
    IndexAdd(mem, mem', shape, orderMap, resting, a);
  }

  /** Taking slot `a` out of its side keeps the whole book sane. */
  lemma RemoveKeeps(mem: Mem, mem': Mem, at: map<u32, PriceLevel>, other: map<u32, PriceLevel>, shape: Shape,
                    orderMap: map<u64, int>, resting: set<int>, a: int, k: nat, spare: int, at': map<u32, PriceLevel>)
    requires 0 <= a < |mem| && a in resting
    requires Sane(mem, at, other, shape, orderMap, resting, mem[a].ticket.side, spare)
    requires var t := mem[a].ticket;
             var chains := shape.On(t.side);
             && t.price in chains && k < |chains[t.price]| && chains[t.price][k] == a
             && HalfOk(mem', at', Removed(chains, t.price, k), t.side, NULL) && Relinked(mem, mem', chains[t.price])
             && ChainsInMem(mem', Removed(chains, t.price, k))
             && LadderOf(mem', Removed(chains, t.price, k)) == Pull(LadderOf(mem, chains), t.price, k)
    ensures var t := mem[a].ticket;
            var shape' := shape.With(t.side, Removed(shape.On(t.side), t.price, k));
            && Sane(mem', at', other, shape', orderMap - {t.orderId}, resting - {a}, t.side, NULL)
            && LinksWithin(mem, mem', resting)
            && BookOf(mem', shape') == BookOf(mem, shape).With(t.side, Pull(BookOf(mem, shape).On(t.side), t.price, k))
  {
    hide HalfOk, IndexOk, LadderOf, AtHome;
    var t := mem[a].ticket;
    ChainFacts(mem, at, other, shape, orderMap, resting, t.side, spare, t.side, t.price);
    AllAtHome(mem, at, other, shape, orderMap, resting, t.side, spare);
    HalfFrame(mem, mem', other, shape.On(t.side.Opposite()), t.side.Opposite(), NULL, shape.On(t.side)[t.price]);
    IndexRemove(mem, mem', shape, orderMap, resting, a, k);
    SubsetCount(resting - {a}, resting);
  }

  // ---- the book as a value ----

  lemma LadderWellFormed(mem: Mem, at: map<u32, PriceLevel>, chains: Chains, side: Side)
    requires HalfOk(mem, at, chains, side, NULL)
    ensures ChainsInMem(mem, chains) && WellFormed(LadderOf(mem, chains), side)
  {
    HalfInMem(mem, at, chains, side, NULL);
    var l := LadderOf(mem, chains);
    forall p | p in l ensures p != 0 && LevelOk(l[p], side, p) {
      assert Sound(mem, at[p], chains[p], side, p, NULL);
    }
  }

  lemma SaneBookOk(mem: Mem, at: map<u32, PriceLevel>, other: map<u32, PriceLevel>, shape: Shape,
                   orderMap: map<u64, int>, resting: set<int>, side: Side)
    requires Sane(mem, at, other, shape, orderMap, resting, side, NULL)
    ensures BookOk(BookOf(mem, shape))
  {
    LadderWellFormed(mem, at, shape.On(side), side);
    LadderWellFormed(mem, other, shape.On(side.Opposite()), side.Opposite());
  }

  /** What the book holds is what its resting slots hold. */
  lemma HoldsSlot(mem: Mem, at: map<u32, PriceLevel>, other: map<u32, PriceLevel>, shape: Shape,
                  orderMap: map<u64, int>, resting: set<int>, side: Side, t: Ticket)
    requires Sane(mem, at, other, shape, orderMap, resting, side, NULL)
    ensures Holds(BookOf(mem, shape), t) <==> t.orderId in orderMap && mem[orderMap[t.orderId]].ticket == t
  {
    var s := ChainAt(shape.On(t.side), t.price);
    ChainFacts(mem, at, other, shape, orderMap, resting, side, NULL, t.side, t.price);
    assert Level(BookOf(mem, shape).On(t.side), t.price) == Tickets(mem, s);
    if Holds(BookOf(mem, shape), t) {
      var i :| 0 <= i < |s| && Tickets(mem, s)[i] == t;
      assert Listed(mem, shape, orderMap, s[i]);
    }
    if t.orderId in orderMap && mem[orderMap[t.orderId]].ticket == t {
      var a := orderMap[t.orderId];
      assert Listed(mem, shape, orderMap, a);
      var i :| 0 <= i < |s| && s[i] == a;
      assert Tickets(mem, s)[i] == t;
    }
  }

  /** The id map answers membership and lookup. */
  lemma LookUp(mem: Mem, at: map<u32, PriceLevel>, other: map<u32, PriceLevel>, shape: Shape,
               orderMap: map<u64, int>, resting: set<int>, side: Side, id: u64)
    requires Sane(mem, at, other, shape, orderMap, resting, side, NULL)
    ensures Contains(BookOf(mem, shape), id) <==> id in orderMap
    ensures id in orderMap ==> Find(BookOf(mem, shape), id) == mem[orderMap[id]].ticket
  {
    var b := BookOf(mem, shape);
    if Contains(b, id) {
      HoldsSlot(mem, at, other, shape, orderMap, resting, side, Find(b, id));
    }
    if id in orderMap {
      HoldsSlot(mem, at, other, shape, orderMap, resting, side, mem[orderMap[id]].ticket);
    }
  }

  lemma WithoutAt(s: seq<Ticket>, k: nat, id: u64)
    requires k < |s| && s[k].orderId == id
    requires forall i | 0 <= i < |s| && i != k :: s[i].orderId != id
    ensures Without(s, id) == s[..k] + s[k + 1..]
  {
    assert s == s[..k] + [s[k]] + s[k + 1..];
    WithoutMiddle(s[..k], [s[k]], s[k + 1..], id);
  }

  lemma RemoveIsPull(l: Ladder, p: u32, k: nat, id: u64)
    requires p in l && k < |l[p]| && l[p][k].orderId == id
    requires forall i | 0 <= i < |l[p]| && i != k :: l[p][i].orderId != id
    requires forall q, t | q in l && q != p && t in l[q] :: t.orderId != id
    requires forall q | q in l :: l[q] != []
    ensures Remove(l, id) == Pull(l, p, k)
  {
    WithoutAt(l[p], k, id);
    forall q | q in l && q != p ensures Without(l[q], id) == l[q] {
      WithoutAbsent(l[q], id);
    }
  }

  lemma RemoveAbsent(l: Ladder, id: u64)
    requires forall q, t | q in l && t in l[q] :: t.orderId != id
    requires forall q | q in l :: l[q] != []
    ensures Remove(l, id) == l
  {
    forall q | q in l ensures Without(l[q], id) == l[q] {
      WithoutAbsent(l[q], id);
    }
  }

  /** Pulling the slot of an id out of its level removes that id from the book. */
  lemma CancelIsPull(mem: Mem, at: map<u32, PriceLevel>, other: map<u32, PriceLevel>, shape: Shape,
                     orderMap: map<u64, int>, resting: set<int>, a: int, k: nat)
    requires 0 <= a < |mem| && a in resting
    requires Sane(mem, at, other, shape, orderMap, resting, mem[a].ticket.side, NULL)
    requires var t := mem[a].ticket;
             t.price in shape.On(t.side) && k < |shape.On(t.side)[t.price]| && shape.On(t.side)[t.price][k] == a
    ensures var t, b := mem[a].ticket, BookOf(mem, shape);
            && BookOk(b)
            && Cancel(b, t.orderId) == b.With(t.side, Pull(b.On(t.side), t.price, k))
  {
    hide HalfOk, IndexOk, Pull;
    var t, b := mem[a].ticket, BookOf(mem, shape);
    SaneBookOk(mem, at, other, shape, orderMap, resting, t.side);
    forall x, p | p in shape.On(x) ensures b.On(x)[p] != [] {
      assert LevelOk(b.On(x)[p], x, p);
    }
    forall x, p, i | p in shape.On(x) && 0 <= i < |shape.On(x)[p]| && (x != t.side || p != t.price || i != k)
      ensures b.On(x)[p][i].orderId != t.orderId
    {
      OtherId(mem, at, other, shape, orderMap, resting, a, k, x, p, i);
    }
    RemoveIsPull(b.On(t.side), t.price, k, t.orderId);
    RemoveAbsent(b.On(t.side.Opposite()), t.orderId);
  }

  /** Every other chained slot holds another id. */
  lemma OtherId(mem: Mem, at: map<u32, PriceLevel>, other: map<u32, PriceLevel>, shape: Shape,
                orderMap: map<u64, int>, resting: set<int>, a: int, k: nat, x: Side, p: u32, i: nat)
    requires 0 <= a < |mem| && a in resting
    requires Sane(mem, at, other, shape, orderMap, resting, mem[a].ticket.side, NULL)
    requires var t := mem[a].ticket;
             && t.price in shape.On(t.side) && k < |shape.On(t.side)[t.price]| && shape.On(t.side)[t.price][k] == a
             && p in shape.On(x) && i < |shape.On(x)[p]| && (x != t.side || p != t.price || i != k)
    ensures BookOf(mem, shape).On(x)[p][i].orderId != mem[a].ticket.orderId
  {
    var t := mem[a].ticket;
    ChainFacts(mem, at, other, shape, orderMap, resting, t.side, NULL, x, p);
    assert Listed(mem, shape, orderMap, a) && Listed(mem, shape, orderMap, shape.On(x)[p][i]);
  }

  class OrderBook {
    var bids: map<u32, PriceLevel>
    var asks: map<u32, PriceLevel>
    var orderMap: map<u64, int>
    ghost var shape: Shape
    ghost var resting: set<int>

    constructor ()
      ensures forall mem :: Valid(mem) && Contents(mem) == EMPTY_BOOK
      ensures resting == {}
    {
      bids, asks, orderMap, shape, resting := map[], map[], map[], Shape(map[], map[]), {};
    }

    function On(side: Side): map<u32, PriceLevel>
      reads this
    {
      if side.BUY? then bids else asks
    }

    /** As `Valid`, but slot `spare` on side `side` may hold a filled order. */
    ghost predicate ValidBut(mem: Mem, side: Side, spare: int)
      reads this
    {
      Sane(mem, On(side), On(side.Opposite()), shape, orderMap, resting, side, spare)
    }

    /** Every level is a nonempty exact chain of its own unfilled orders, and the id map is a bijection with the
        chained slots. */
    ghost predicate Valid(mem: Mem)
      reads this
    {
      ValidBut(mem, BUY, NULL)
    }

    ghost predicate InMemory(mem: Mem)
      reads this
    {
      ChainsInMem(mem, shape.bids) && ChainsInMem(mem, shape.asks)
    }

    ghost function Contents(mem: Mem): (b: Book)
      requires InMemory(mem)
      reads this
    {
      BookOf(mem, shape)
    }

    /** Rest an order at the tail of its level, creating the level if need be; refuse an id that is resting. */
    method AddOrder(pool: SlabPool, a: int) returns (ok: bool)
      requires Valid(pool.cells) && |resting| + 1 < TWO_32
      requires a != NULL ==> 0 <= a < |pool.cells| && a !in resting
      requires a != NULL ==> pool.cells[a].ticket.price != 0 && !pool.cells[a].ticket.Filled()
      modifies this, pool`cells
      ensures Valid(pool.cells)
      ensures ok == (a != NULL && old(pool.cells[a].ticket.orderId) !in old(orderMap))
      ensures !ok ==>
                && pool.cells == old(pool.cells) && resting == old(resting)
                && Contents(pool.cells) == old(Contents(pool.cells))
      ensures ok ==>
                var t := old(pool.cells[a].ticket);
                var b := old(Contents(pool.cells));
                && resting == old(resting) + {a} && orderMap == old(orderMap)[t.orderId := a]
                && LinksWithin(old(pool.cells), pool.cells, resting)
                && Contents(pool.cells) == b.With(t.side, Rest(b.On(t.side), t))
    {
      hide HalfOk, IndexOk, LadderOf, LinksWithin;
      if a == NULL {
        return false;
      }
      var t := pool.cells[a].ticket;
      if t.orderId in orderMap {
        return false;
      }
      ok := true;
      ghost var mem := pool.cells;
      ChainFacts(mem, On(t.side), On(t.side.Opposite()), shape, orderMap, resting, t.side, NULL, t.side, t.price);
      var at;
      ghost var chains;
      at, chains := PlaceOn(pool, On(t.side), shape.On(t.side), t.side, a);
      AddKeeps(mem, pool.cells, On(t.side), On(t.side.Opposite()), shape, orderMap, resting, a, at);
      if t.side.BUY? {
        bids := at;
      } else {
        asks := at;
      }
      shape := shape.With(t.side, chains);
      orderMap := orderMap[t.orderId := a];
      resting := resting + {a};
    }

    /** Unlink a resting slot and forget its id; an emptied level goes too. */
    method RemoveOrder(pool: SlabPool, a: int, ghost spare: int) returns (ghost k: nat)
      requires 0 <= a < |pool.cells| && a in resting && (spare == NULL || spare == a)
      requires ValidBut(pool.cells, pool.cells[a].ticket.side, spare)
      modifies this, pool`cells
      ensures Valid(pool.cells) && resting == old(resting) - {a}
      ensures var t := old(pool.cells[a].ticket);
              var b := old(Contents(pool.cells));
              && t.price in old(shape.On(t.side)) && k < |old(shape.On(t.side)[t.price])|
              && old(shape.On(t.side)[t.price][k]) == a
              && LinksWithin(old(pool.cells), pool.cells, old(resting))
              && Contents(pool.cells) == b.With(t.side, Pull(b.On(t.side), t.price, k))
      ensures pool.cells[a].next == NULL && pool.cells[a].prev == NULL
      ensures orderMap == old(orderMap) - {old(pool.cells[a].ticket.orderId)}
    {
      hide HalfOk, IndexOk, LadderOf, LinksWithin;
      var t := pool.cells[a].ticket;
      ghost var mem := pool.cells;
      RestingListed(mem, shape, orderMap, resting, a);
      k :| k < |shape.On(t.side)[t.price]| && shape.On(t.side)[t.price][k] == a;
      var at;
      ghost var chains;
      at, chains := TakeFrom(pool, On(t.side), shape.On(t.side), t.side, a, k, spare);
      RemoveKeeps(mem, pool.cells, On(t.side), On(t.side.Opposite()), shape, orderMap, resting, a, k, spare, at);
      if t.side.BUY? {
        bids := at;
      } else {
        asks := at;
      }
      shape := shape.With(t.side, chains);
      orderMap := orderMap - {t.orderId};
      resting := resting - {a};
    }

    /** Find the order by id, unlink it and hand back its slot; NULL when the id is not resting. */
    method CancelOrder(pool: SlabPool, id: u64) returns (a: int)
      requires Valid(pool.cells)
      modifies this, pool`cells
      ensures Valid(pool.cells) && BookOk(old(Contents(pool.cells)))
      ensures a == NULL <==> !Contains(old(Contents(pool.cells)), id)
      ensures a == NULL ==>
                && pool.cells == old(pool.cells) && resting == old(resting)
                && Contents(pool.cells) == old(Contents(pool.cells))
      ensures a != NULL ==>
                && a in old(resting) && resting == old(resting) - {a} && id !in orderMap
                && 0 <= a < |pool.cells| && pool.cells[a].ticket == Find(old(Contents(pool.cells)), id)
                && LinksWithin(old(pool.cells), pool.cells, old(resting))
                && Contents(pool.cells) == Cancel(old(Contents(pool.cells)), id)
    {
      ghost var mem, b := pool.cells, Contents(pool.cells);
      SaneBookOk(mem, bids, asks, shape, orderMap, resting, BUY);
      LookUp(mem, bids, asks, shape, orderMap, resting, BUY, id);
      if id !in orderMap {
        return NULL;
      }
      a := orderMap[id];
      ghost var shape0, orderMap0, resting0 := shape, orderMap, resting;
      ghost var side := mem[a].ticket.side;
      ghost var at, other := On(side), On(side.Opposite());
      assert ValidBut(mem, side, NULL);
      ghost var k := RemoveOrder(pool, a, NULL);
      CancelIsPull(mem, at, other, shape0, orderMap0, resting0, a, k);
    }

    /** The best price of a side, or 0 when the side is empty. */
    method GetBest(side: Side) returns (p: u32)
      ensures On(side) == map[] ==> p == 0
      ensures On(side) != map[] ==> IsBest(On(side).Keys, side.Opposite(), p)
    {
      var keys := On(side).Keys;
      if keys == {} {
        return 0;
      }
      BestExists(keys, side.Opposite());
      p :| p in keys && forall q | q in keys :: q == p || Better(side.Opposite(), p, q);
    }
  }
}
