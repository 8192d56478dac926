/** Driving a feed through the engine (src/ReplayEngine.cpp, include/replay/RecoveryReconciler.h). */
module Replay {
  import opened Protocol
  import opened Ladders
  import opened Slab
  import opened OrderBooks
  import opened MatchingEngines
  import opened Capacity
  import Sweep
  import BookInvariants

  /** An injective map takes as many values as it has keys. */
  lemma {:induction false} ImageCount(m: map<u64, int>, keys: set<u64>)
    requires keys <= m.Keys
    requires forall id, id' | id in keys && id' in keys && m[id] == m[id'] :: id == id'
    ensures |set id | id in keys :: m[id]| == |keys|
    decreases |keys|
  {
    var image := set id | id in keys :: m[id];
    if keys != {} {
      var k :| k in keys;
      ImageCount(m, keys - {k});
      var rest := set id | id in keys - {k} :: m[id];
      assert image == rest + {m[k]};
      assert m[k] !in rest;
    }
  }

  lemma IndexCount(mem: Mem, shape: Shape, orderMap: map<u64, int>, resting: set<int>)
    requires IndexOk(mem, shape, orderMap, resting)
    ensures |resting| == |orderMap.Keys|
  {
    var image := set id | id in orderMap.Keys :: orderMap[id];
    forall a | a in resting ensures a in image {
      assert Listed(mem, shape, orderMap, a);
    }
    assert image == resting;
    ImageCount(orderMap, orderMap.Keys);
  }

  /** One slot per resting id. */
  lemma RestingCount(e: MatchingEngine)
    requires e.Valid()
    ensures |e.book.resting| == |Ids(e.Contents())|
  {
    forall id ensures id in Ids(e.Contents()) <==> id in e.book.orderMap {
      IdsContain(e.Contents(), id);
      e.KnownId(id);
    }
    assert Ids(e.Contents()) == e.book.orderMap.Keys;
    IndexCount(e.pool.cells, e.book.shape, e.book.orderMap, e.book.resting);
  }

  /** Slots are free, resting, or foreign. */
  lemma SlotSplit(e: MatchingEngine)
    requires e.Valid()
    ensures |e.pool.free| + |Ids(e.Contents())| + |e.Foreign()| == |e.pool.cells|
    ensures e.pool.allocatedCount == |Ids(e.Contents())| + |e.Foreign()|
  {
    RestingCount(e);
    e.pool.LeasedCount();
    SubsetCount(e.book.resting, e.pool.Leased());
  }

  ghost function DeskOf(e: MatchingEngine): Desk
    requires e.Valid()
    reads e, e.pool, e.book
  {
    Desk(e.Contents(), |e.pool.free|, e.fills)
  }

  /** Allocate a slot and copy a message into it. */
  method NewOrder(e: MatchingEngine, m: FeedMessage) returns (a: int)
    requires e.Valid()
    modifies e.pool
    ensures e.Valid() && e.Contents() == old(e.Contents()) && |e.pool.cells| == old(|e.pool.cells|)
    ensures a == NULL <==> old(|e.pool.free|) == 0
    ensures a == NULL ==> e.Foreign() == old(e.Foreign())
    ensures a != NULL ==>
              && a !in old(e.Foreign()) && e.Foreign() == old(e.Foreign()) + {a}
              && 0 <= a < |e.pool.cells| && e.pool.cells[a].ticket == TicketOf(m)
              && e.pool.cells[a].orderType == TypeOf(m.orderType)
    ensures Spared(old(e.pool.cells), e.pool.cells, old(e.Foreign()))
  {
    ghost var mem := e.pool.cells;
    a := e.pool.Allocate();
    if a != NULL {
      var cell := e.pool.cells[a].(ticket := TicketOf(m), orderType := TypeOf(m.orderType));
      ghost var blank := e.pool.cells;
      e.pool.cells := e.pool.cells[a := cell];
      FreeChainFrame(blank, e.pool.cells, e.pool.freeHead, e.pool.free);
      SaneFrame(mem, e.pool.cells, e.book.bids, e.book.asks, e.book.shape, e.book.orderMap, e.book.resting, BUY);
    }
  }

  /** An ADD takes a slot only if it rests, and gives back the slots of the orders it fills. */
  method DeliverAdd(e: MatchingEngine, m: FeedMessage) returns (dropped: bool)
    requires e.Valid() && IsValidFeedMessage(m) && m.msgType == ADD
    modifies e`fills, e`currentSeq, e.pool, e.book
    ensures e.Valid() && e.Foreign() == old(e.Foreign()) && |e.pool.cells| == old(|e.pool.cells|)
    ensures dropped == Dropped(m, old(|e.pool.free|))
    ensures dropped ==> e.Contents() == old(e.Contents()) && e.fills == old(e.fills)
    ensures !dropped ==>
              var r := Apply(old(e.Contents()), m);
              e.Contents() == r.book && e.fills == old(e.fills) + r.fills
    ensures Spared(old(e.pool.cells), e.pool.cells, old(e.Foreign()))
  {
    hide OrderBooks.Sane, Slab.FreeChain, Ladders.Submit, Ladders.WellFormed;
    var a := NewOrder(e, m);
    dropped := a == NULL;
    if a != NULL {
      e.ProcessOrder(a, m.sequence);
      assert e.Foreign() == old(e.Foreign());
    }
  }

  method DeliverOther(e: MatchingEngine, m: FeedMessage) returns (found: bool)
    requires e.Valid() && IsValidFeedMessage(m) && m.msgType != ADD
    modifies e`fills, e`currentSeq, e.pool, e.book
    ensures e.Valid() && e.Foreign() == old(e.Foreign()) && |e.pool.cells| == old(|e.pool.cells|)
    ensures found == Contains(old(e.Contents()), m.orderId)
    ensures var r := Apply(old(e.Contents()), m);
            e.Contents() == r.book && e.fills == old(e.fills) + r.fills
    ensures Spared(old(e.pool.cells), e.pool.cells, old(e.Foreign()))
  {
    hide OrderBooks.Sane, Slab.FreeChain, Ladders.Modify, Ladders.Cancel, Ladders.WellFormed;
    if m.msgType == CANCEL {
      found := e.CancelOrder(m.orderId);
    } else {
      found := e.ModifyOrder(m.orderId, m.price, m.qty, m.sequence);
    }
  }

  lemma ServeFits(d: Desk, m: FeedMessage, r: Desk, n: int)
    requires BookOk(d.book) && d.free + |Ids(d.book)| == n && r.free + |Ids(r.book)| == n
    requires if Dropped(m, d.free) then r.book == d.book && r.fills == d.fills
             else r.book == Apply(d.book, m).book && r.fills == d.fills + Apply(d.book, m).fills
    ensures r == Serve(d, m)
  {
  }

  /** One valid message: the engine, its pool and its fills move as `Serve` says, and every slot that is not resting is
      free again unless it belongs to someone else. */
  method Deliver(e: MatchingEngine, m: FeedMessage) returns (dropped: bool, found: bool)
    requires e.Valid() && IsValidFeedMessage(m)
    modifies e`fills, e`currentSeq, e.pool, e.book
    ensures e.Valid() && e.Foreign() == old(e.Foreign()) && |e.pool.cells| == old(|e.pool.cells|)
    ensures DeskOf(e) == Serve(old(DeskOf(e)), m)
    ensures dropped == Dropped(m, old(|e.pool.free|))
    ensures if m.msgType == ADD then found else found == Contains(old(e.Contents()), m.orderId)
    ensures Spared(old(e.pool.cells), e.pool.cells, old(e.Foreign()))
  {
    hide OrderBooks.Sane, Slab.FreeChain, Ladders.Apply, Ladders.WellFormed, Capacity.Serve;
    SlotSplit(e);
    ghost var d := DeskOf(e);
    dropped, found := false, true;
    if m.msgType == ADD {
      dropped := DeliverAdd(e, m);
    } else {
      found := DeliverOther(e, m);
    }
    SlotSplit(e);
    ServeFits(d, m, DeskOf(e), |e.pool.cells| - |e.Foreign()|);
  }

  /** Deliver a message and pull the fills it produced. */
  method DeliverAndDrain(e: MatchingEngine, m: FeedMessage) returns (dropped: bool, found: bool, batch: seq<Fill>)
    requires e.Valid() && e.fills == [] && IsValidFeedMessage(m)
    modifies e`fills, e`currentSeq, e.pool, e.book
    ensures e.Valid() && e.fills == [] && e.Foreign() == old(e.Foreign()) && |e.pool.cells| == old(|e.pool.cells|)
    ensures batch == Serve(old(DeskOf(e)), m).fills
    ensures DeskOf(e) == Serve(old(DeskOf(e)), m).(fills := [])
    ensures dropped == Dropped(m, old(|e.pool.free|))
    ensures if m.msgType == ADD then found else found == Contains(old(e.Contents()), m.orderId)
    ensures Spared(old(e.pool.cells), e.pool.cells, old(e.Foreign()))
  {
    hide OrderBooks.Sane, Slab.FreeChain, Ladders.Apply, Ladders.WellFormed, Capacity.Serve;
    dropped, found := Deliver(e, m);
    batch := e.DrainFills();
  }

  datatype ReplayStats = ReplayStats(messages: nat, adds: nat, cancels: nat, modifications: nat, cancelMisses: nat,
                                     invalidMessages: nat, droppedAdds: nat, fills: nat, matchedVolume: nat)

  const ZERO_STATS: ReplayStats := ReplayStats(0, 0, 0, 0, 0, 0, 0, 0, 0)

  /** A valid message counts once under its kind, and as a miss if its target is not resting. */
  function CountKind(s: ReplayStats, m: FeedMessage, found: bool): ReplayStats {
    var t := s.(messages := s.messages + 1);
    var miss := if found then 0 else 1;
    if m.msgType == ADD then t.(adds := t.adds + 1)
    else if m.msgType == CANCEL then t.(cancels := t.cancels + 1, cancelMisses := t.cancelMisses + miss)
    else t.(modifications := t.modifications + 1, cancelMisses := t.cancelMisses + miss)
  }

  /** The counters after one message that arrived at desk `d`. */
  ghost function Tally(s: ReplayStats, d: Desk, m: FeedMessage): ReplayStats
    requires BookOk(d.book)
  {
    if !IsValidFeedMessage(m) then s.(invalidMessages := s.invalidMessages + 1)
    else
      var t := CountKind(s, m, Contains(d.book, m.orderId));
      if Dropped(m, d.free) then t.(droppedAdds := t.droppedAdds + 1)
      else
        var f := Apply(d.book, m).fills;
        t.(fills := t.fills + |f|, matchedVolume := t.matchedVolume + Sweep.Volume(f))
  }

  ghost function TallyAll(d: Desk, feed: seq<FeedMessage>): ReplayStats
    requires BookOk(d.book)
  {
    if feed == [] then ZERO_STATS
    else
      var init := feed[..|feed| - 1];
      Tally(TallyAll(d, init), ServeAll(d, init), feed[|feed| - 1])
  }

  ghost predicate AddsUp(s: ReplayStats, received: nat, served: nat, fills: seq<Fill>) {
    && s.messages + s.invalidMessages == received
    && s.adds + s.cancels + s.modifications == s.messages
    && s.cancelMisses <= s.cancels + s.modifications
    && s.droppedAdds == received - served
    && s.fills == |fills| && s.matchedVolume == Sweep.Volume(fills)
  }

  lemma TallyStep(s: ReplayStats, d: Desk, m: FeedMessage, received: nat, served: nat)
    requires BookOk(d.book) && AddsUp(s, received, served, d.fills)
    ensures AddsUp(Tally(s, d, m), received + 1, if Dropped(m, d.free) then served else served + 1, Serve(d, m).fills)
  {
    if IsValidFeedMessage(m) && !Dropped(m, d.free) {
      BookInvariants.VolumeConcat(d.fills, Apply(d.book, m).fills);
    } else {
      ServeCases(d, m);
    }
  }

  /** The counters add up: every message is valid or invalid, every valid one has one kind, the dropped ADDs are those
      missing from the served feed, and fills and volume are those of the run. */
  lemma {:induction false} StatsAddUp(d: Desk, feed: seq<FeedMessage>)
    requires BookOk(d.book) && d.fills == []
    ensures AddsUp(TallyAll(d, feed), |feed|, |Served(d, feed)|, ServeAll(d, feed).fills)
  {
    if feed != [] {
      hide AddsUp, Tally, Capacity.Serve;
      var init := feed[..|feed| - 1];
      StatsAddUp(d, init);
      TallyStep(TallyAll(d, init), ServeAll(d, init), feed[|feed| - 1], |init|, |Served(d, init)|);
    }
  }

  // --- Each counter on its own -----------------------------------------------------------------

  /** The positions of the feed that hold a valid message of this type. */
  ghost function OfKind(feed: seq<FeedMessage>, kind: u8): set<nat> {
    set i: nat | i < |feed| && IsValidFeedMessage(feed[i]) && feed[i].msgType == kind
  }

  ghost function Invalid(feed: seq<FeedMessage>): set<nat> {
    set i: nat | i < |feed| && !IsValidFeedMessage(feed[i])
  }

  /** Message `i` is a valid CANCEL or MODIFY whose order does not rest when it arrives. */
  ghost predicate Misses(d: Desk, feed: seq<FeedMessage>, i: nat)
    requires BookOk(d.book) && i < |feed|
  {
    IsValidFeedMessage(feed[i]) && feed[i].msgType != 0 && !Contains(ServeAll(d, feed[..i]).book, feed[i].orderId)
  }

  /** Message `i` is a valid ADD that finds no free slot. */
  ghost predicate FindsNoSlot(d: Desk, feed: seq<FeedMessage>, i: nat)
    requires BookOk(d.book) && i < |feed|
  {
    IsValidFeedMessage(feed[i]) && feed[i].msgType == 0 && ServeAll(d, feed[..i]).free == 0
  }

  ghost function Missed(d: Desk, feed: seq<FeedMessage>): set<nat>
    requires BookOk(d.book)
  {
    set i: nat | i < |feed| && Misses(d, feed, i)
  }

  ghost function TurnedAway(d: Desk, feed: seq<FeedMessage>): set<nat>
    requires BookOk(d.book)
  {
    set i: nat | i < |feed| && FindsNoSlot(d, feed, i)
  }

  ghost predicate CountsExactly(s: ReplayStats, d: Desk, feed: seq<FeedMessage>)
    requires BookOk(d.book)
  {
    && s.adds == |OfKind(feed, 0)| && s.cancels == |OfKind(feed, 1)| && s.modifications == |OfKind(feed, 2)|
    && s.invalidMessages == |Invalid(feed)|
    && s.cancelMisses == |Missed(d, feed)| && s.droppedAdds == |TurnedAway(d, feed)|
  }

  /** Positions up to `n` that have a property are those below `n`, and `n` if it has it. */
  lemma OneMore(a: set<nat>, b: set<nat>, n: nat, last: bool)
    requires forall i | i in a :: i < n
    requires forall i: nat :: i in b <==> i in a || (i == n && last)
    ensures |b| == |a| + if last then 1 else 0
  {
    assert b == a + if last then {n} else {};
  }

  lemma KindsGrow(feed: seq<FeedMessage>, m: FeedMessage, kind: u8)
    ensures |OfKind(feed + [m], kind)| == |OfKind(feed, kind)| + if IsValidFeedMessage(m) && m.msgType == kind then 1
            else 0
  {
    hide IsValidFeedMessage;
    var n, all := |feed|, feed + [m];
    forall i: nat ensures i in OfKind(all, kind) <==>
                          i in OfKind(feed, kind) || (i == n && IsValidFeedMessage(m) && m.msgType == kind)
    {
      assert i < n ==> all[i] == feed[i];
    }
    OneMore(OfKind(feed, kind), OfKind(all, kind), n, IsValidFeedMessage(m) && m.msgType == kind);
  }

  lemma InvalidGrow(feed: seq<FeedMessage>, m: FeedMessage)
    ensures |Invalid(feed + [m])| == |Invalid(feed)| + if IsValidFeedMessage(m) then 0 else 1
  {
    hide IsValidFeedMessage;
    var n, all := |feed|, feed + [m];
    forall i: nat ensures i in Invalid(all) <==> i in Invalid(feed) || (i == n && !IsValidFeedMessage(m)) {
      assert i < n ==> all[i] == feed[i];
    }
    OneMore(Invalid(feed), Invalid(all), n, !IsValidFeedMessage(m));
  }

  lemma SamePast(d: Desk, feed: seq<FeedMessage>, m: FeedMessage, i: nat)
    requires BookOk(d.book) && i < |feed|
    ensures Misses(d, feed + [m], i) == Misses(d, feed, i) && FindsNoSlot(d, feed + [m], i) == FindsNoSlot(d, feed, i)
  {
    assert (feed + [m])[..i] == feed[..i] && (feed + [m])[i] == feed[i];
  }

  lemma MissesGrow(d: Desk, feed: seq<FeedMessage>, m: FeedMessage)
    requires BookOk(d.book)
    ensures |Missed(d, feed + [m])| == |Missed(d, feed)| + if Misses(d, feed + [m], |feed|) then 1 else 0
    ensures |TurnedAway(d, feed + [m])| == |TurnedAway(d, feed)| + if FindsNoSlot(d, feed + [m], |feed|) then 1 else 0
  {
    hide Misses, FindsNoSlot;
    var n, all := |feed|, feed + [m];
    forall i: nat
      ensures i in Missed(d, all) <==> i in Missed(d, feed) || (i == n && Misses(d, all, n))
      ensures i in TurnedAway(d, all) <==> i in TurnedAway(d, feed) || (i == n && FindsNoSlot(d, all, n))
    {
      if i < n {
        SamePast(d, feed, m, i);
      }
    }
    OneMore(Missed(d, feed), Missed(d, all), n, Misses(d, all, n));
    OneMore(TurnedAway(d, feed), TurnedAway(d, all), n, FindsNoSlot(d, all, n));
  }

  lemma CountsStep(s: ReplayStats, d: Desk, feed: seq<FeedMessage>, m: FeedMessage)
    requires BookOk(d.book) && CountsExactly(s, d, feed)
    ensures CountsExactly(Tally(s, ServeAll(d, feed), m), d, feed + [m])
  {
    hide ServeAll, Contains, Apply, WellFormed, OfKind, Invalid, Missed, TurnedAway, Sweep.Volume;
    KindsGrow(feed, m, 0);
    KindsGrow(feed, m, 1);
    KindsGrow(feed, m, 2);
    InvalidGrow(feed, m);
    MissesGrow(d, feed, m);
    assert (feed + [m])[..|feed|] == feed;
  }

  lemma NothingCounted(d: Desk)
    requires BookOk(d.book)
    ensures CountsExactly(ZERO_STATS, d, [])
  {
  }

  /** Each counter is the number of messages it says it counts. */
  lemma {:induction false} CountersAreExact(d: Desk, feed: seq<FeedMessage>)
    requires BookOk(d.book)
    ensures CountsExactly(TallyAll(d, feed), d, feed)
  {
    hide CountsExactly, Tally, ServeAll, BookOk;
    if feed == [] {
      NothingCounted(d);
    } else {
      var init, m := feed[..|feed| - 1], feed[|feed| - 1];
      assert feed == init + [m];
      CountersAreExact(d, init);
      CountsStep(TallyAll(d, init), d, init, m);
    }
  }

  /** Over every replay from an empty book, and on each side: what the served messages entered is the volume counted,
      plus what rests, plus what was discarded. */
  lemma ReplayConserves(capacity: nat, feed: seq<FeedMessage>, side: Side)
    ensures var d := Desk(EMPTY_BOOK, capacity, []);
            var served := Served(d, feed);
            BookInvariants.EnteredOver(served, side) ==
            TallyAll(d, feed).matchedVolume + BookInvariants.Total(ServeAll(d, feed).book.On(side))
              + BookInvariants.DiscardedOver(served, side)
  {
    var d := Desk(EMPTY_BOOK, capacity, []);
    hide TallyAll, ServeAll, Served, Ladders.Run, BookInvariants.EnteredOver, BookInvariants.DiscardedOver,
         BookInvariants.Total, Sweep.Volume;
    StatsAddUp(d, feed);
    ServeAllIsRun(d, feed);
    BookInvariants.QuantityConserved(Served(d, feed), side);
    var f := Run(EMPTY_BOOK, Served(d, feed)).fills;
    assert [] + f == f;
  }

  lemma ServeCases(d: Desk, m: FeedMessage)
    requires BookOk(d.book)
    ensures !IsValidFeedMessage(m) ==> Serve(d, m) == d
    ensures Dropped(m, d.free) ==> Serve(d, m) == d
    ensures !Dropped(m, d.free) ==> Serve(d, m).fills == d.fills + Apply(d.book, m).fills
  {
  }

  lemma AddNeverMisses(s: ReplayStats, m: FeedMessage, found: bool, found': bool)
    requires m.msgType == ADD
    ensures CountKind(s, m, found) == CountKind(s, m, found')
  {
  }

  /** `Tally` in terms of what `Deliver` reports. */
  lemma TallyCases(s: ReplayStats, d: Desk, m: FeedMessage, found: bool)
    requires BookOk(d.book) && d.fills == []
    requires m.msgType != ADD ==> found == Contains(d.book, m.orderId)
    ensures !IsValidFeedMessage(m) ==> Tally(s, d, m) == s.(invalidMessages := s.invalidMessages + 1)
    ensures IsValidFeedMessage(m) ==>
              var t, f := CountKind(s, m, found), Serve(d, m).fills;
              Tally(s, d, m) == if Dropped(m, d.free) then t.(droppedAdds := t.droppedAdds + 1)
                                else t.(fills := t.fills + |f|, matchedVolume := t.matchedVolume + Sweep.Volume(f))
  {
    hide Ladders.Apply, Ladders.BookOk, Capacity.Serve, Ladders.Contains, Sweep.Volume, CountKind;
    ServeCases(d, m);
    if m.msgType == ADD {
      AddNeverMisses(s, m, found, Contains(d.book, m.orderId));
    }
    assert d.fills + Apply(d.book, m).fills == Apply(d.book, m).fills;
  }

  /** Drained fills do not change what the next message does. */
  lemma DrainedStep(d: Desk, s: ReplayStats, m: FeedMessage)
    requires BookOk(d.book)
    ensures Serve(d.(fills := []), m).(fills := []) == Serve(d, m).(fills := [])
    ensures Tally(s, d.(fills := []), m) == Tally(s, d, m)
  {
    hide Ladders.Apply, Ladders.BookOk, Capacity.Ids, CountKind, Ladders.Contains, Sweep.Volume;
  }

  lemma NothingYet(d: Desk, feed: seq<FeedMessage>)
    requires BookOk(d.book)
    ensures ServeAll(d, feed[..0]) == d && TallyAll(d, feed[..0]) == ZERO_STATS
  {
  }

  datatype ReplayMode = NORMAL | MAX

  class ReplayEngine {
    const engine: MatchingEngine

    constructor (engine: MatchingEngine)
      ensures this.engine == engine
    {
      this.engine := engine;
    }

    ghost predicate Valid()
      reads engine, engine.pool, engine.book
    {
      engine.Valid() && engine.fills == []
    }

    ghost function State(): (d: Desk)
      requires Valid()
      reads engine, engine.pool, engine.book
      ensures BookOk(d.book)
    {
      DeskOf(engine)
    }

    method ApplyValid(m: FeedMessage, stats: ReplayStats) returns (after: ReplayStats, fillsThisMsg: nat)
      requires Valid() && IsValidFeedMessage(m)
      modifies engine`fills, engine`currentSeq, engine.pool, engine.book
      ensures Valid() && engine.Foreign() == old(engine.Foreign())
      ensures after == Tally(stats, old(State()), m)
      ensures State() == Serve(old(State()), m).(fills := []) && fillsThisMsg == |Serve(old(State()), m).fills|
    {
      hide OrderBooks.Sane, Slab.FreeChain, Ladders.Apply, Ladders.WellFormed, Capacity.Serve, CountKind, Tally;
      ghost var d := State();
      var dropped, found, scratch := DeliverAndDrain(engine, m);
      TallyCases(stats, d, m, found);
      after := CountKind(stats, m, found);
      if dropped {
        ServeCases(d, m);
        return after.(droppedAdds := after.droppedAdds + 1), 0;
      }
      fillsThisMsg := |scratch|;
      var volume := VolumeOf(scratch);
      after := after.(fills := after.fills + |scratch|, matchedVolume := after.matchedVolume + volume);
    }

    /** One message: state and counters move as `Serve` and `Tally` say; the fills are drained. */
    method ApplyMessage(m: FeedMessage, stats: ReplayStats) returns (after: ReplayStats, fillsThisMsg: nat)
      requires Valid()
      modifies engine`fills, engine`currentSeq, engine.pool, engine.book
      ensures Valid() && engine.Foreign() == old(engine.Foreign())
      ensures after == Tally(stats, old(State()), m)
      ensures State() == Serve(old(State()), m).(fills := []) && fillsThisMsg == |Serve(old(State()), m).fills|
    {
      ServeCases(State(), m);
      hide OrderBooks.Sane, Slab.FreeChain, Ladders.Apply, Ladders.WellFormed, Capacity.Serve, CountKind;
      if IsValidFeedMessage(m) {
        after, fillsThisMsg := ApplyValid(m, stats);
      } else {
        after, fillsThisMsg := stats.(invalidMessages := stats.invalidMessages + 1), 0;
      }
    }

    /** One more message of the feed. */
    method Advance(ghost d: Desk, feed: seq<FeedMessage>, i: nat, stats: ReplayStats) returns (after: ReplayStats)
      requires Valid() && BookOk(d.book) && i < |feed|
      requires State() == ServeAll(d, feed[..i]).(fills := []) && stats == TallyAll(d, feed[..i])
      modifies engine`fills, engine`currentSeq, engine.pool, engine.book
      ensures Valid() && engine.Foreign() == old(engine.Foreign())
      ensures State() == ServeAll(d, feed[..i + 1]).(fills := []) && after == TallyAll(d, feed[..i + 1])
    {
      hide OrderBooks.Sane, Slab.FreeChain, Ladders.WellFormed, Capacity.Serve, Tally;
      DrainedStep(ServeAll(d, feed[..i]), stats, feed[i]);
      assert feed[..i + 1][..i] == feed[..i];
      var n;
      after, n := ApplyMessage(feed[i], stats);
    }

    lemma Drained()
      requires Valid()
      ensures State().fills == []
    {
    }

    /** A whole feed, in either mode: the engine ends up, and the counters come out, as the feed alone determines. */
    method Run(feed: seq<FeedMessage>, mode: ReplayMode, warmup: nat) returns (stats: ReplayStats)
      requires Valid()
      modifies engine`fills, engine`currentSeq, engine.pool, engine.book
      ensures Valid() && engine.Foreign() == old(engine.Foreign())
      ensures stats == TallyAll(old(State()), feed)
      ensures State() == ServeAll(old(State()), feed).(fills := [])
    {
      hide OrderBooks.Sane, Slab.FreeChain, Ladders.WellFormed, Capacity.Serve, Tally, ServeAll, TallyAll, DeskOf,
           MatchingEngine.Valid;
      ghost var d := State();
      stats := ZERO_STATS;
      var i := 0;
      Drained();
      NothingYet(d, feed);
      if mode == MAX {
        while i < warmup && i < |feed|
          invariant i <= |feed| && Valid() && engine.Foreign() == old(engine.Foreign())
          invariant State() == ServeAll(d, feed[..i]).(fills := []) && stats == TallyAll(d, feed[..i])
        {
          stats := Advance(d, feed, i, stats);
          i := i + 1;
        }
      }
      while i < |feed|
        invariant i <= |feed| && Valid() && engine.Foreign() == old(engine.Foreign())
        invariant State() == ServeAll(d, feed[..i]).(fills := []) && stats == TallyAll(d, feed[..i])
      {
        stats := Advance(d, feed, i, stats);
        i := i + 1;
      }
      assert feed[..|feed|] == feed;
    }
  }

  method VolumeOf(fills: seq<Fill>) returns (v: nat)
    ensures v == Sweep.Volume(fills)
  {
    v := 0;
    for i := 0 to |fills|
      invariant v == Sweep.Volume(fills[..i])
    {
      BookInvariants.VolumeConcat(fills[..i], [fills[i]]);
      assert fills[..i + 1] == fills[..i] + [fills[i]];
      v := v + fills[i].qty;
    }
    assert fills[..|fills|] == fills;
  }
}
