/** One shard on the slab: an engine per symbol, all drawing on one pool (include/matching/ShardedEngine.h). */
module Shards {
  import opened Protocol
  import opened Ladders
  import opened Slab
  import opened OrderBooks
  import opened MatchingEngines
  import opened Capacity
  import opened Replay
  import opened Sharded

  /** The orders resting in these symbols' books. */
  ghost function Occupied(books: map<u64, Book>, symbols: set<u64>): nat
    requires symbols <= books.Keys
    decreases |symbols|
  {
    if symbols == {} then 0
    else
      var s :| s in symbols;
      |Ids(books[s])| + Occupied(books, symbols - {s})
  }

  /** The engines of a shard, one per symbol seen, and the pool they share. */
  class EngineTable {
    const pool: SlabPool
    var engines: map<u64, MatchingEngine>

    ghost function Parts(): set<object>
      reads this
    {
      (set s | s in engines :: engines[s]) + (set s | s in engines :: engines[s].book)
    }

    ghost predicate EngineOk(s: u64)
      requires s in engines
      reads this, pool, engines[s], engines[s].book
    {
      engines[s].pool == pool && engines[s].fills == [] && engines[s].Valid()
    }

    ghost predicate Apart(s: u64, s': u64)
      requires s in engines && s' in engines
      reads this, engines[s], engines[s'], engines[s].book, engines[s'].book
    {
      && engines[s] != engines[s'] && engines[s].book != engines[s'].book
      && engines[s].book.resting !! engines[s'].book.resting
    }

    /** Every slot in use rests somewhere. */
    ghost predicate AllRest()
      reads this, pool, Parts()
    {
      forall a | a in pool.Leased() :: exists s :: s in engines && a in engines[s].book.resting
    }

    ghost predicate AllOk()
      reads this, pool, Parts()
    {
      forall s {:trigger EngineOk(s)} | s in engines :: EngineOk(s)
    }

    /** Every engine is intact, and every slot in use rests in exactly one of them. */
    ghost predicate Valid()
      reads this, pool, Parts()
    {
      && pool.Valid() && |pool.cells| < TWO_32 && AllRest() && AllOk()
      && (forall s, s' {:trigger Apart(s, s')} | s in engines && s' in engines && s != s' :: Apart(s, s'))
    }

    ghost function BookAt(s: u64): Book
      requires s in engines && EngineOk(s)
      reads this, pool, engines[s], engines[s].book
    {
      engines[s].Contents()
    }

    ghost function Books(): (r: map<u64, Book>)
      requires AllOk()
      reads this, pool, Parts()
      ensures BooksOk(r)
    {
      map s | s in engines :: (assert EngineOk(s); BookAt(s))
    }

    constructor (capacity: nat)
      requires capacity < TWO_32
      ensures Valid() && engines == map[] && Books() == map[] && |pool.free| == capacity && fresh(pool) && Parts() == {}
    {
      pool := new SlabPool(capacity);
      engines := map[];
    }

    /** Registering an idle engine with an empty book adds an empty book. */
    method Admit(symbol: u64, e: MatchingEngine)
      requires Valid() && symbol !in engines
      requires e.pool == pool && e.fills == [] && e.Valid() && e.Contents() == EMPTY_BOOK && e.book.resting == {}
      requires forall s | s in engines :: engines[s] != e && engines[s].book != e.book
      modifies this`engines
      ensures Valid() && engines == old(engines)[symbol := e]
      ensures Books() == old(Books())[symbol := EMPTY_BOOK]
    {
      hide Slab.SlabPool.Valid, Slab.SlabPool.Leased, MatchingEngine.Valid, MatchingEngine.Contents, Ladders.BookOk;
      ghost var before, was := engines, Books();
      engines := engines[symbol := e];
      forall s | s in engines ensures EngineOk(s) {
        assert s != symbol ==> old(EngineOk(s));
      }
      forall s, s' | s in engines && s' in engines && s != s' ensures Apart(s, s') {
        assert s != symbol && s' != symbol ==> old(Apart(s, s'));
      }
      forall a | a in pool.Leased() ensures exists s :: s in engines && a in engines[s].book.resting {
        var s :| s in before && a in before[s].book.resting;
        assert s in engines && a in engines[s].book.resting;
      }
      BooksAre(was[symbol := EMPTY_BOOK]);
    }

    lemma SameBooks(symbol: u64)
      requires AllOk()
      ensures symbol in Books() <==> symbol in engines
      ensures symbol in engines ==> Books()[symbol := BookFor(Books(), symbol)] == Books()
    {
    }

    /** The engine of a symbol, created on first use. */
    method GetEngine(symbol: u64) returns (e: MatchingEngine)
      requires Valid()
      modifies this`engines
      ensures Valid() && symbol in engines && engines[symbol] == e && fresh(Parts() - old(Parts()))
      ensures Books() == old(Books())[symbol := BookFor(old(Books()), symbol)]
    {
      hide OrderBooks.Sane, Slab.FreeChain, Ladders.WellFormed, Slab.SlabPool.Valid, EngineOk, Apart, Books;
      SameBooks(symbol);
      if symbol in engines {
        e := engines[symbol];
      } else {
        e := new MatchingEngine(pool);
        Admit(symbol, e);
      }
    }

    ghost function OtherBooks(symbol: u64): set<OrderBook>
      reads this
    {
      set s | s in engines && s != symbol :: engines[s].book
    }

    /** The slots that are foreign to the engine of `symbol` rest, each in exactly one of the other engines. */
    ghost predicate Elsewhere(symbol: u64, foreign: set<int>)
      requires symbol in engines
      reads this, OtherBooks(symbol)
    {
      && (forall s | s in engines && s != symbol ::
            && engines[s] != engines[symbol] && engines[s].book != engines[symbol].book
            && engines[s].book.resting <= foreign)
      && (forall s, s' | s in engines && s' in engines && s != s' && s != symbol && s' != symbol ::
            && engines[s] != engines[s'] && engines[s].book != engines[s'].book
            && engines[s].book.resting !! engines[s'].book.resting)
      && (forall a | a in foreign :: exists s :: s in engines && s != symbol && a in engines[s].book.resting)
    }

    lemma ValidFromParts(symbol: u64)
      requires symbol in engines && AllOk() && Elsewhere(symbol, engines[symbol].Foreign())
      ensures Valid()
    {
      hide OrderBooks.Sane, Slab.FreeChain;
      var e := engines[symbol];
      assert EngineOk(symbol);
      forall s, s' | s in engines && s' in engines && s != s' ensures Apart(s, s') {
        assert EngineOk(s) && EngineOk(s');
      }
      forall a | a in pool.Leased() ensures exists s :: s in engines && a in engines[s].book.resting {
        if a !in e.book.resting {
          assert a in e.Foreign();
          var s :| s in engines && s != symbol && a in engines[s].book.resting;
        }
      }
    }

    lemma PartsOfValid(symbol: u64)
      requires symbol in engines && Valid()
      ensures AllOk() && EngineOk(symbol) && Elsewhere(symbol, engines[symbol].Foreign())
    {
      hide OrderBooks.Sane, Slab.FreeChain;
      assert EngineOk(symbol);
      forall s | s in engines && s != symbol
        ensures engines[s].book.resting <= engines[symbol].Foreign()
        ensures engines[s] != engines[symbol] && engines[s].book != engines[symbol].book
      {
        assert EngineOk(s) && Apart(s, symbol);
      }
      forall s, s' | s in engines && s' in engines && s != s' && s != symbol && s' != symbol
        ensures engines[s] != engines[s'] && engines[s].book != engines[s'].book
                && engines[s].book.resting !! engines[s'].book.resting
      {
        assert Apart(s, s');
      }
    }

    lemma BooksAre(want: map<u64, Book>)
      requires AllOk() && want.Keys == engines.Keys
      requires forall s {:trigger EngineOk(s)} | s in engines :: EngineOk(s) && BookAt(s) == want[s]
      ensures Books() == want
    {
      hide EngineOk, BookAt;
      forall s | s in engines ensures Books()[s] == want[s] {
        assert EngineOk(s);
      }
    }

    /** An engine whose slots were spared is as it was when memory was `mem`. */
    lemma StaysOk(s: u64, mem: Mem, keep: set<int>)
      requires s in engines && engines[s].pool == pool && engines[s].fills == []
      requires pool.Valid() && |pool.cells| < TWO_32
      requires engines[s].book.Valid(mem) && Spared(mem, pool.cells, keep)
      requires engines[s].book.resting <= keep <= pool.Leased()
      ensures EngineOk(s) && BookAt(s) == engines[s].book.Contents(mem)
    {
      hide OrderBooks.Sane, Slab.FreeChain;
      BookSpared(engines[s].book, mem, pool.cells, keep);
    }

    lemma ElsewhereFacts(symbol: u64, foreign: set<int>)
      requires symbol in engines && Elsewhere(symbol, foreign)
      ensures engines[symbol].book !in OtherBooks(symbol)
      ensures forall s | s in engines && s != symbol ::
                && engines[s] != engines[symbol] && engines[s].book != engines[symbol].book
                && engines[s].book.resting <= foreign
    {
    }

    /** One engine's turn leaves the others as they were. */
    method Turn(symbol: u64, m: FeedMessage) returns (batch: seq<Fill>)
      requires symbol in engines && AllOk() && EngineOk(symbol) && IsValidFeedMessage(m)
      requires Elsewhere(symbol, engines[symbol].Foreign())
      modifies pool, engines[symbol], engines[symbol].book
      ensures EngineOk(symbol) && Elsewhere(symbol, engines[symbol].Foreign())
      ensures forall s {:trigger EngineOk(s)} | s in engines && s != symbol ::
              EngineOk(s) && BookAt(s) == old(Books())[s]
      ensures var d := Serve(old(DeskOf(engines[symbol])), m);
              DeskOf(engines[symbol]) == d.(fills := []) && batch == d.fills
    {
      hide OrderBooks.Sane, Slab.FreeChain, Ladders.WellFormed, Capacity.Serve, Elsewhere, Spared, DeskOf;
      var e := engines[symbol];
      ghost var mem, foreign, was := pool.cells, e.Foreign(), Books();
      ElsewhereFacts(symbol, foreign);
      var dropped, found;
      dropped, found, batch := DeliverAndDrain(e, m);
      forall s | s in engines && s != symbol ensures EngineOk(s) && BookAt(s) == was[s] {
        assert old(EngineOk(s));
        StaysOk(s, mem, foreign);
      }
    }

    lemma Seat(symbol: u64)
      requires AllOk() && symbol in engines
      ensures EngineOk(symbol) && engines[symbol].Valid() && engines[symbol].pool == pool
      ensures Books().Keys == engines.Keys
      ensures DeskOf(engines[symbol]) == Desk(Books()[symbol], |pool.free|, []) && Books()[symbol] == BookAt(symbol)
    {
    }

    method Relay(symbol: u64, m: FeedMessage) returns (batch: seq<Fill>)
      requires Valid() && symbol in engines && IsValidFeedMessage(m)
      modifies pool, engines[symbol], engines[symbol].book
      ensures Valid()
      ensures var d := Serve(Desk(old(Books())[symbol], old(|pool.free|), []), m);
              Books() == old(Books())[symbol := d.book] && |pool.free| == d.free && batch == d.fills
    {
      hide OrderBooks.Sane, Slab.FreeChain, Ladders.WellFormed, Capacity.Serve, Elsewhere, EngineOk, Valid, Books,
           BookAt, DeskOf;
      PartsOfValid(symbol);
      Seat(symbol);
      ghost var was := Books();
      ghost var d := Serve(Desk(was[symbol], |pool.free|, []), m);
      batch := Turn(symbol, m);
      assert AllOk();
      Seat(symbol);
      BooksAre(was[symbol := d.book]);
      ValidFromParts(symbol);
    }

    lemma PartsAreEngines()
      ensures forall o | o in Parts() :: o is MatchingEngine || o is OrderBook
    {
    }

    /** Find the symbol's engine, or create it, and let it serve the message. */
    method ServeOne(m: FeedMessage) returns (batch: seq<Fill>)
      requires Valid() && IsValidFeedMessage(m)
      modifies this, pool, Parts()
      ensures Valid() && fresh(Parts() - old(Parts()))
      ensures var b := BookFor(old(Books()), m.symbolPacked);
              var d := Serve(Desk(b, old(|pool.free|), []), m);
              && Books() == old(Books())[m.symbolPacked := b][m.symbolPacked := d.book]
              && |pool.free| == d.free && batch == d.fills
    {
      hide OrderBooks.Sane, Slab.FreeChain, Ladders.WellFormed, Capacity.Serve, Valid, Books, BookFor;
      var e := GetEngine(m.symbolPacked);
      assert e in Parts() && e.book in Parts();
      batch := Relay(m.symbolPacked, m);
    }
  }

  /** The resting slots of these symbols' engines. */
  ghost function SlotsOf(t: EngineTable, symbols: set<u64>): set<int>
    requires symbols <= t.engines.Keys
    reads t, t.Parts()
  {
    set s, a | s in symbols && a in t.engines[s].book.resting :: a
  }

  lemma {:induction false} OneSlotEach(t: EngineTable, symbols: set<u64>)
    requires t.Valid() && symbols <= t.engines.Keys
    ensures t.Books().Keys == t.engines.Keys && |SlotsOf(t, symbols)| == Occupied(t.Books(), symbols)
    decreases |symbols|
  {
    hide OrderBooks.Sane, Slab.FreeChain, Ids;
    if symbols != {} {
      hide SlotsOf;
      var s :| s in symbols && Occupied(t.Books(), symbols) == |Ids(t.Books()[s])| + Occupied(t.Books(), symbols - {s});
      OneSlotEach(t, symbols - {s});
      t.Seat(s);
      RestingCount(t.engines[s]);
      SlotsSplit(t, symbols, s);
    }
  }

  lemma SlotsSplit(t: EngineTable, symbols: set<u64>, s: u64)
    requires t.Valid() && symbols <= t.engines.Keys && s in symbols
    ensures var rest, own := SlotsOf(t, symbols - {s}), t.engines[s].book.resting;
            SlotsOf(t, symbols) == rest + own && rest !! own
  {
    hide OrderBooks.Sane, Slab.FreeChain, EngineTable.EngineOk;
    var rest, own := SlotsOf(t, symbols - {s}), t.engines[s].book.resting;
    forall a | a in SlotsOf(t, symbols) ensures a in rest + own {
      var x :| x in symbols && a in t.engines[x].book.resting;
      assert x == s || x in symbols - {s};
    }
    forall a | a in rest + own ensures a in SlotsOf(t, symbols) {
      if a in own {
        assert s in symbols && a in t.engines[s].book.resting;
      } else {
        var x :| x in symbols - {s} && a in t.engines[x].book.resting;
      }
    }
    forall a | a in rest ensures a !in own {
      var s' :| s' in symbols - {s} && a in t.engines[s'].book.resting;
      assert t.Apart(s', s);
    }
  }

  /** The pool's count of slots in use is the number of orders resting in all the engines that share it. */
  lemma SlotsAccounted(t: EngineTable)
    requires t.Valid()
    ensures t.Books().Keys == t.engines.Keys && t.pool.allocatedCount == Occupied(t.Books(), t.engines.Keys)
    ensures t.pool.allocatedCount + |t.pool.free| == |t.pool.cells|
  {
    hide OrderBooks.Sane, Slab.FreeChain;
    OneSlotEach(t, t.engines.Keys);
    t.pool.LeasedCount();
    forall s, a | s in t.engines && a in t.engines[s].book.resting ensures a in t.pool.Leased() {
      assert t.EngineOk(s);
    }
    assert SlotsOf(t, t.engines.Keys) == t.pool.Leased();
  }

  /** Finding the engine, serving the message and appending its fills is serving the shard. */
  lemma ServesShard(was: ShardState, m: FeedMessage)
    requires BooksOk(was.engines)
    ensures !IsValidFeedMessage(m) ==> ServeShard(was, m) == was
    ensures var b := BookFor(was.engines, m.symbolPacked);
            var d := Serve(Desk(b, was.free, []), m);
            IsValidFeedMessage(m) ==>
              ServeShard(was, m) ==
              ShardState(was.engines[m.symbolPacked := b][m.symbolPacked := d.book], d.free, was.fills + d.fills)
  {
    hide Capacity.Serve, Ladders.BookOk;
    var b := BookFor(was.engines, m.symbolPacked);
    var d := Desk(b, was.free, was.fills);
    ServeAppends(d, m);
    assert d.(fills := []) == Desk(b, was.free, []);
    var book := Serve(d, m).book;
    assert was.engines[m.symbolPacked := b][m.symbolPacked := book] == was.engines[m.symbolPacked := book];
  }

  class ShardWorker {
    const table: EngineTable
    var fills: seq<Fill>

    ghost predicate Valid()
      reads table, table.pool, table.Parts()
    {
      table.Valid()
    }

    ghost function State(): (r: ShardState)
      requires Valid()
      reads this, table, table.pool, table.Parts()
      ensures BooksOk(r.engines)
    {
      ShardState(table.Books(), |table.pool.free|, fills)
    }

    constructor (capacity: nat)
      requires capacity < TWO_32
      ensures Valid() && State() == ShardState(map[], capacity, [])
      ensures fresh(table) && fresh(table.pool) && table.Parts() == {}
    {
      table := new EngineTable(capacity);
      fills := [];
    }

    /** One popped message: the shard moves as `ServeShard` says. */
    method ApplyMessage(m: FeedMessage)
      requires Valid()
      modifies this, table, table.pool, table.Parts()
      ensures Valid() && State() == ServeShard(old(State()), m) && fresh(table.Parts() - old(table.Parts()))
    {
      hide OrderBooks.Sane, Slab.FreeChain, Ladders.WellFormed, Capacity.Serve, EngineTable.Valid, EngineTable.Books,
           ServeShard, BookFor;
      ghost var was := State();
      if !IsValidFeedMessage(m) {
        ServesShard(was, m);
        return;
      }
      var batch := table.ServeOne(m);
      table.PartsAreEngines();
      fills := fills + batch;
      ServesShard(was, m);
    }
  }
}
