/** What `stop`, `totalProcessed` and `collectAllFills` deliver (include/matching/ShardedEngine.h). */
module Collect {
  import opened Protocol
  import opened Ladders
  import opened Capacity
  import opened Sharded

  // --- Counting --------------------------------------------------------------------------------

  function Processed(shards: seq<Shard>): nat {
    if shards == [] then 0 else Processed(shards[..|shards| - 1]) + shards[|shards| - 1].processed
  }

  method TotalProcessed(shards: seq<Shard>) returns (total: nat)
    ensures total == Processed(shards)
  {
    total := 0;
    for i := 0 to |shards|
      invariant total == Processed(shards[..i])
    {
      assert shards[..i + 1][..i] == shards[..i];
      total := total + shards[i].processed;
    }
    assert shards[..|shards|] == shards;
  }

  /** How many of the messages the first `k` shards own. */
  function OwnedBy(msgs: seq<FeedMessage>, k: nat, n: nat): nat
    requires n > 0
  {
    if k == 0 then 0 else OwnedBy(msgs, k - 1, n) + |Routed(msgs, k - 1, n)|
  }

  lemma {:induction false} OwnedStep(msgs: seq<FeedMessage>, m: FeedMessage, k: nat, n: nat)
    requires n > 0
    ensures OwnedBy(msgs + [m], k, n) == OwnedBy(msgs, k, n) + if ShardIndex(m.symbolPacked, n) < k then 1 else 0
  {
    hide ShardIndex, Routed;
    if k > 0 {
      OwnedStep(msgs, m, k - 1, n);
      RoutedStep(msgs, m, k - 1, n);
    }
  }

  lemma {:induction false} OwnedNone(k: nat, n: nat)
    requires n > 0
    ensures OwnedBy([], k, n) == 0
  {
    if k > 0 {
      OwnedNone(k - 1, n);
    }
  }

  /** Every message belongs to exactly one shard. */
  lemma {:induction false} OwnedAll(msgs: seq<FeedMessage>, n: nat)
    requires n > 0
    ensures OwnedBy(msgs, n, n) == |msgs|
  {
    if msgs == [] {
      OwnedNone(n, n);
    } else {
      var init, m := msgs[..|msgs| - 1], msgs[|msgs| - 1];
      OwnedAll(init, n);
      OwnedStep(init, m, n, n);
      assert msgs == init + [m];
    }
  }

  lemma {:induction false} ProcessedOwned(shards: seq<Shard>, msgs: seq<FeedMessage>, n: nat)
    requires n > 0 && forall i | 0 <= i < |shards| :: shards[i].processed == |Routed(msgs, i, n)|
    ensures Processed(shards) == OwnedBy(msgs, |shards|, n)
  {
    hide Routed;
    if shards != [] {
      ProcessedOwned(shards[..|shards| - 1], msgs, n);
    }
  }

  /** Whatever the schedule, once stopped every shard is what its share of the messages routed before `stop` makes it,
      and each of these messages has been processed once. A message routed after `stop` waits for the next start. */
  lemma StopFinishesAll(states: seq<System>, capacity: nat, n: nat)
    requires IsRun(states, capacity) && n < |states| && states[n].phase.Stopped?
    ensures var s := states[n];
            && (forall i | 0 <= i < |s.shards| ::
               s.shards[i].state == ShardRun(capacity, Routed(BeforeStop(s), i, |s.shards|)))
            && Processed(s.shards) == |BeforeStop(s)|
  {
    RunKeeps(states, capacity, n);
    var s := states[n];
    var before := BeforeStop(s);
    hide Routed, ShardRun;
    forall i | 0 <= i < |s.shards|
      ensures s.shards[i].state == ShardRun(capacity, Routed(before, i, |s.shards|))
      ensures s.shards[i].processed == |Routed(before, i, |s.shards|)|
    {
      assert ShardOk(s.shards[i], capacity);
      assert Sealed(s.shards[i], s.routed, s.sealed, i, |s.shards|);
    }
    ProcessedOwned(s.shards, before, |s.shards|);
    OwnedAll(before, |s.shards|);
  }

  // --- Stable sorting by timestamp -------------------------------------------------------------

  /** The fills with timestamp `t`, in order. */
  function At(s: seq<Fill>, t: u64): seq<Fill> {
    if s == [] then []
    else At(s[..|s| - 1], t) + if s[|s| - 1].timestamp == t then [s[|s| - 1]] else []
  }

  predicate InOrder(s: seq<Fill>) {
    forall i, j | 0 <= i < j < |s| :: s[i].timestamp <= s[j].timestamp
  }

  /** `r` is `s` sorted by timestamp, fills with equal timestamps staying in order. */
  ghost predicate StableSorted(s: seq<Fill>, r: seq<Fill>) {
    InOrder(r) && forall t :: At(r, t) == At(s, t)
  }

  lemma {:induction false} AtConcat(a: seq<Fill>, b: seq<Fill>, t: u64)
    ensures At(a + b, t) == At(a, t) + At(b, t)
  {
    if b == [] {
      assert a + b == a;
    } else {
      var init := b[..|b| - 1];
      assert (a + b)[..|a + b| - 1] == a + init;
      AtConcat(a, init, t);
    }
  }

  lemma {:induction false} AtMember(s: seq<Fill>, t: u64)
    ensures forall f :: f in At(s, t) <==> f in s && f.timestamp == t
  {
    if s != [] {
      var init := s[..|s| - 1];
      AtMember(init, t);
      assert s == init + [s[|s| - 1]];
    }
  }

  lemma {:induction false} AtNone(s: seq<Fill>, t: u64)
    requires forall i | 0 <= i < |s| :: s[i].timestamp != t
    ensures At(s, t) == []
  {
    if s != [] {
      AtNone(s[..|s| - 1], t);
    }
  }

  /** A stable sort has only one result. */
  lemma {:induction false} SortUnique(a: seq<Fill>, b: seq<Fill>)
    requires InOrder(a) && InOrder(b) && forall t :: At(a, t) == At(b, t)
    ensures a == b
  {
    if a == [] {
      Nonempty(b, a);
    } else {
      Nonempty(a, b);
      var a', b' := a[..|a| - 1], b[..|b| - 1];
      LastTimes(a, b);
      hide At;
      forall t ensures At(a', t) == At(b', t) {
        SameLast(a, b, t);
      }
      SameLast(a, b, 0);
      SortUnique(a', b');
      assert a == a' + [a[|a| - 1]];
      assert b == b' + [b[|b| - 1]];
    }
  }

  lemma Nonempty(a: seq<Fill>, b: seq<Fill>)
    requires forall t :: At(a, t) == At(b, t)
    ensures a != [] ==> b != []
  {
    if a != [] {
      var t := a[|a| - 1].timestamp;
      AtMember(a, t);
      AtMember(b, t);
      assert a[|a| - 1] in At(b, t);
    }
  }

  lemma LastTimes(a: seq<Fill>, b: seq<Fill>)
    requires InOrder(a) && InOrder(b) && a != [] && b != [] && forall t :: At(a, t) == At(b, t)
    ensures a[|a| - 1].timestamp == b[|b| - 1].timestamp
  {
    NotLater(a, b);
    NotLater(b, a);
  }

  lemma NotLater(a: seq<Fill>, b: seq<Fill>)
    requires InOrder(b) && a != [] && b != [] && forall t :: At(a, t) == At(b, t)
    ensures a[|a| - 1].timestamp <= b[|b| - 1].timestamp
  {
    var x := a[|a| - 1];
    hide At;
    AtMember(a, x.timestamp);
    AtMember(b, x.timestamp);
    assert x in At(b, x.timestamp);
  }

  lemma SameLast(a: seq<Fill>, b: seq<Fill>, t: u64)
    requires a != [] && b != [] && a[|a| - 1].timestamp == b[|b| - 1].timestamp && forall t :: At(a, t) == At(b, t)
    ensures a[|a| - 1] == b[|b| - 1] && At(a[..|a| - 1], t) == At(b[..|b| - 1], t)
  {
    var x, y, a', b' := a[|a| - 1], b[|b| - 1], a[..|a| - 1], b[..|b| - 1];
    var u := x.timestamp;
    assert At(a, u) == At(a', u) + [x] && At(b, u) == At(b', u) + [y];
    assert At(a, u)[|At(a, u)| - 1] == x;
    assert At(a', u) == At(a, u)[..|At(a, u)| - 1] && At(b', u) == At(b, u)[..|At(b, u)| - 1];
    assert t != u ==> At(a, t) == At(a', t) && At(b, t) == At(b', t);
  }

  /** Put `f` behind the last fill that is not later. */
  method Insert(s: seq<Fill>, f: Fill) returns (r: seq<Fill>)
    requires InOrder(s)
    ensures StableSorted(s + [f], r)
  {
    hide At;
    var k := |s|;
    while k > 0 && f.timestamp < s[k - 1].timestamp
      invariant 0 <= k <= |s|
      invariant forall i | k <= i < |s| :: f.timestamp < s[i].timestamp
    {
      k := k - 1;
    }
    r := s[..k] + [f] + s[k..];
    InsertInOrder(s, f, k);
    forall t ensures At(r, t) == At(s + [f], t) {
      InsertKeeps(s, f, k, t);
    }
  }

  lemma InsertInOrder(s: seq<Fill>, f: Fill, k: nat)
    requires InOrder(s) && k <= |s| && (k > 0 ==> s[k - 1].timestamp <= f.timestamp)
    requires forall i | k <= i < |s| :: f.timestamp < s[i].timestamp
    ensures InOrder(s[..k] + [f] + s[k..])
  {
    var r := s[..k] + [f] + s[k..];
    assert forall i | 0 <= i < |r| :: r[i] == if i < k then s[i] else if i == k then f else s[i - 1];
  }

  lemma InsertKeeps(s: seq<Fill>, f: Fill, k: nat, t: u64)
    requires k <= |s| && forall i | k <= i < |s| :: f.timestamp < s[i].timestamp
    ensures At(s[..k] + [f] + s[k..], t) == At(s + [f], t)
  {
    var a, b := s[..k], s[k..];
    AtConcat(a + [f], b, t);
    AtConcat(a, [f], t);
    AtConcat(a, b, t);
    AtConcat(s, [f], t);
    assert s == a + b;
    if t == f.timestamp {
      AtNone(b, t);
    } else {
      assert At([f], t) == [];
    }
  }

  method StableSort(s: seq<Fill>) returns (r: seq<Fill>)
    ensures StableSorted(s, r)
  {
    r := [];
    for i := 0 to |s|
      invariant StableSorted(s[..i], r)
    {
      ghost var before := r;
      r := Insert(r, s[i]);
      assert s[..i + 1] == s[..i] + [s[i]];
      forall t ensures At(r, t) == At(s[..i + 1], t) {
        AtConcat(before, [s[i]], t);
        AtConcat(s[..i], [s[i]], t);
      }
    }
    assert s[..|s|] == s;
  }

  /** The fills of all shards, shard after shard. */
  function AllFills(shards: seq<Shard>): seq<Fill> {
    if shards == [] then [] else AllFills(shards[..|shards| - 1]) + shards[|shards| - 1].state.fills
  }

  method CollectAllFills(shards: seq<Shard>) returns (all: seq<Fill>)
    ensures StableSorted(AllFills(shards), all)
  {
    all := [];
    for i := 0 to |shards|
      invariant all == AllFills(shards[..i])
    {
      assert shards[..i + 1][..i] == shards[..i];
      all := all + shards[i].state.fills;
    }
    assert shards[..|shards|] == shards;
    all := StableSort(all);
  }

  // --- One thread, one engine per symbol -------------------------------------------------------

  datatype Market = Market(engines: map<u64, Book>, fills: seq<Fill>)

  ghost function Trade(k: Market, m: FeedMessage): (r: Market)
    requires BooksOk(k.engines)
    ensures BooksOk(r.engines)
  {
    if !IsValidFeedMessage(m) then k
    else
      var o := Apply(BookFor(k.engines, m.symbolPacked), m);
      Market(k.engines[m.symbolPacked := o.book], k.fills + o.fills)
  }

  ghost function MarketRun(msgs: seq<FeedMessage>): (r: Market)
    ensures BooksOk(r.engines)
  {
    if msgs == [] then Market(map[], []) else Trade(MarketRun(msgs[..|msgs| - 1]), msgs[|msgs| - 1])
  }

  lemma {:induction false} MatchStamps(l: Ladder, taker: Ticket, respectPrice: bool, ts: u64)
    requires WellFormed(l, taker.side.Opposite())
    ensures forall f | f in Match(l, taker, respectPrice, ts).fills :: f.timestamp == ts
    decreases taker.Remaining()
  {
    if CanTrade(l, taker, respectPrice) {
      var p := BestPrice(l, taker.side);
      assert LevelOk(l[p], taker.side.Opposite(), p) && l[p][0] in l[p];
      var q := Min(taker.Remaining(), l[p][0].Remaining());
      ConsumeWellFormed(l, taker.side.Opposite(), p, q);
      MatchStamps(Consume(l, p, q), taker.Take(q), respectPrice, ts);
    }
  }

  lemma SubmitStamps(b: Book, t: Ticket, ty: OrderType, ts: u64)
    requires BookOk(b) && (ty != MARKET ==> t.price != 0)
    ensures forall f | f in Submit(b, t, ty, ts).fills :: f.timestamp == ts
  {
    hide Match;
    MatchStamps(b.On(t.side.Opposite()), t, ty != MARKET, ts);
  }

  /** Fills carry the sequence number of the message that made them. */
  lemma ApplyStamps(b: Book, m: FeedMessage)
    requires BookOk(b)
    ensures forall f | f in Apply(b, m).fills :: f.timestamp == m.sequence
    ensures !Enters(m) ==> Apply(b, m).fills == []
  {
    hide Submit;
    if Enters(m) {
      if m.msgType == ADD {
        SubmitStamps(b, TicketOf(m), TypeOf(m.orderType), m.sequence);
      } else if Contains(b, m.orderId) {
        var t := Find(b, m.orderId).(price := m.price, qty := m.qty, filledQty := 0);
        SubmitStamps(Cancel(b, m.orderId), t, LIMIT, m.sequence);
      }
    }
  }

  /** Messages that can trade carry strictly increasing sequence numbers. */
  ghost predicate Increasing(msgs: seq<FeedMessage>) {
    forall i, j | 0 <= i < j < |msgs| && Enters(msgs[i]) && Enters(msgs[j]) :: msgs[i].sequence < msgs[j].sequence
  }

  /** The shard's pool never turns an ADD away. */
  ghost predicate NeverDropped(capacity: nat, msgs: seq<FeedMessage>) {
    forall i | 0 <= i < |msgs| :: !Dropped(msgs[i], ShardRun(capacity, msgs[..i]).free)
  }

  lemma NeverDroppedInit(capacity: nat, msgs: seq<FeedMessage>, m: FeedMessage)
    requires NeverDropped(capacity, msgs + [m])
    ensures NeverDropped(capacity, msgs) && !Dropped(m, ShardRun(capacity, msgs).free)
  {
    hide ShardRun;
    var all := msgs + [m];
    forall i | 0 <= i < |msgs| ensures !Dropped(msgs[i], ShardRun(capacity, msgs[..i]).free) {
      assert all[i] == msgs[i] && all[..i] == msgs[..i];
    }
    assert all[|msgs|] == m && all[..|msgs|] == msgs;
  }

  ghost predicate PoolsSuffice(capacity: nat, msgs: seq<FeedMessage>, n: nat) {
    n > 0 && forall i | 0 <= i < n :: NeverDropped(capacity, Routed(msgs, i, n))
  }

  lemma PoolsSufficeInit(capacity: nat, msgs: seq<FeedMessage>, m: FeedMessage, n: nat)
    requires PoolsSuffice(capacity, msgs + [m], n)
    ensures PoolsSuffice(capacity, msgs, n)
    ensures !Dropped(m, ShardRun(capacity, Routed(msgs, ShardIndex(m.symbolPacked, n), n)).free)
  {
    hide ShardIndex, Routed, NeverDropped;
    forall i | 0 <= i < n
      ensures NeverDropped(capacity, Routed(msgs, i, n))
      ensures i == ShardIndex(m.symbolPacked, n) ==> !Dropped(m, ShardRun(capacity, Routed(msgs, i, n)).free)
    {
      RoutedStep(msgs, m, i, n);
      if i == ShardIndex(m.symbolPacked, n) {
        NeverDroppedInit(capacity, Routed(msgs, i, n), m);
      } else {
        assert Routed(msgs + [m], i, n) == Routed(msgs, i, n);
      }
    }
  }

  /** Each symbol's book on its shard is the book of the one-thread run. */
  ghost predicate BooksAgree(capacity: nat, msgs: seq<FeedMessage>, n: nat)
    requires n > 0
  {
    forall s: u64 ::
      BookFor(MarketRun(msgs).engines, s) == BookFor(ShardRun(capacity, Routed(msgs, ShardIndex(s, n), n)).engines, s)
  }

  lemma MarketStep(msgs: seq<FeedMessage>, m: FeedMessage)
    ensures MarketRun(msgs + [m]) == Trade(MarketRun(msgs), m)
  {
  }

  lemma {:induction false} BooksStayEqual(capacity: nat, msgs: seq<FeedMessage>, n: nat)
    requires PoolsSuffice(capacity, msgs, n)
    ensures BooksAgree(capacity, msgs, n)
  {
    if msgs != [] {
      var init, m := msgs[..|msgs| - 1], msgs[|msgs| - 1];
      assert msgs == init + [m];
      PoolsSufficeInit(capacity, init, m, n);
      BooksStayEqual(capacity, init, n);
      hide ShardIndex, Routed, ShardRun, MarketRun, Serve, Apply;
      forall s: u64
        ensures BookFor(MarketRun(msgs).engines, s)
                == BookFor(ShardRun(capacity, Routed(msgs, ShardIndex(s, n), n)).engines, s)
      {
        BookStep(capacity, init, m, n, s);
      }
    }
  }

  lemma BookStep(capacity: nat, msgs: seq<FeedMessage>, m: FeedMessage, n: nat, s: u64)
    requires n > 0 && BooksAgree(capacity, msgs, n)
    requires !Dropped(m, ShardRun(capacity, Routed(msgs, ShardIndex(m.symbolPacked, n), n)).free)
    ensures BookFor(MarketRun(msgs + [m]).engines, s) ==
            BookFor(ShardRun(capacity, Routed(msgs + [m], ShardIndex(s, n), n)).engines, s)
  {
    hide ShardIndex, Routed, ShardRun, MarketRun, Apply, BookOk;
    var i := ShardIndex(s, n);
    MarketStep(msgs, m);
    RoutedStep(msgs, m, i, n);
    ShardRunStep(capacity, Routed(msgs, i, n), m);
    assert BookFor(MarketRun(msgs).engines, m.symbolPacked) ==
           BookFor(ShardRun(capacity, Routed(msgs, ShardIndex(m.symbolPacked, n), n)).engines, m.symbolPacked);
    assert BookFor(MarketRun(msgs).engines, s) == BookFor(ShardRun(capacity, Routed(msgs, i, n)).engines, s);
    assert Routed(msgs, i, n) + [] == Routed(msgs, i, n);
  }

  /** The fills of the first `k` of `n` shards, shard after shard. */
  ghost function FillsOf(capacity: nat, msgs: seq<FeedMessage>, k: nat, n: nat): seq<Fill>
    requires n > 0
  {
    if k == 0 then [] else FillsOf(capacity, msgs, k - 1, n) + ShardRun(capacity, Routed(msgs, k - 1, n)).fills
  }

  /** No shard up to `k` has fills at time `t` if their concatenation has none. */
  lemma {:induction false} PiecesEmpty(capacity: nat, msgs: seq<FeedMessage>, k: nat, n: nat, t: u64)
    requires n > 0 && At(FillsOf(capacity, msgs, k, n), t) == []
    ensures forall i | 0 <= i < k :: At(ShardRun(capacity, Routed(msgs, i, n)).fills, t) == []
  {
    hide ShardRun, Routed;
    if k > 0 {
      AtConcat(FillsOf(capacity, msgs, k - 1, n), ShardRun(capacity, Routed(msgs, k - 1, n)).fills, t);
      PiecesEmpty(capacity, msgs, k - 1, n, t);
    }
  }

  lemma {:induction false} FillsEmpty(capacity: nat, k: nat, n: nat)
    requires n > 0
    ensures FillsOf(capacity, [], k, n) == []
  {
    if k > 0 {
      FillsEmpty(capacity, k - 1, n);
    }
  }

  /** What message `m` adds to its shard's fills. */
  lemma ShardFillsStep(capacity: nat, msgs: seq<FeedMessage>, m: FeedMessage, n: nat, i: nat)
    requires n > 0 && BooksAgree(capacity, msgs, n)
    requires !Dropped(m, ShardRun(capacity, Routed(msgs, ShardIndex(m.symbolPacked, n), n)).free)
    ensures ShardRun(capacity, Routed(msgs + [m], i, n)).fills ==
            ShardRun(capacity, Routed(msgs, i, n)).fills +
            if i == ShardIndex(m.symbolPacked, n)
            then Apply(BookFor(MarketRun(msgs).engines, m.symbolPacked), m).fills else []
  {
    hide ShardIndex, Routed, ShardRun, MarketRun, BookOk;
    RoutedStep(msgs, m, i, n);
    ShardRunStep(capacity, Routed(msgs, i, n), m);
    assert BookFor(MarketRun(msgs).engines, m.symbolPacked) ==
           BookFor(ShardRun(capacity, Routed(msgs, ShardIndex(m.symbolPacked, n), n)).engines, m.symbolPacked);
    assert Routed(msgs, i, n) + [] == Routed(msgs, i, n);
  }

  /** At any time, the shards together gain what the one-thread run gains. */
  lemma {:induction false} FillsStep(capacity: nat, msgs: seq<FeedMessage>, m: FeedMessage, k: nat, n: nat, t: u64)
    requires n > 0 && BooksAgree(capacity, msgs, n)
    requires !Dropped(m, ShardRun(capacity, Routed(msgs, ShardIndex(m.symbolPacked, n), n)).free)
    requires var f := Apply(BookFor(MarketRun(msgs).engines, m.symbolPacked), m).fills;
             At(f, t) == [] || forall i | 0 <= i < k :: At(ShardRun(capacity, Routed(msgs, i, n)).fills, t) == []
    ensures var f := Apply(BookFor(MarketRun(msgs).engines, m.symbolPacked), m).fills;
            At(FillsOf(capacity, msgs + [m], k, n), t) ==
            At(FillsOf(capacity, msgs, k, n), t) + if ShardIndex(m.symbolPacked, n) < k then At(f, t) else []
  {
    hide ShardIndex, Routed, ShardRun, MarketRun, Apply, BooksAgree, At;
    if k > 0 {
      var f := Apply(BookFor(MarketRun(msgs).engines, m.symbolPacked), m).fills;
      var earlier := ShardRun(capacity, Routed(msgs, k - 1, n)).fills;
      FillsStep(capacity, msgs, m, k - 1, n, t);
      ShardFillsStep(capacity, msgs, m, n, k - 1);
      AtConcat(FillsOf(capacity, msgs, k - 1, n), earlier, t);
      AtConcat(FillsOf(capacity, msgs + [m], k - 1, n), ShardRun(capacity, Routed(msgs + [m], k - 1, n)).fills, t);
      AtConcat(earlier, f, t);
      assert earlier + [] == earlier;
    }
  }

  /** Fills of the one-thread run are in timestamp order, and stamped by messages of the feed. */
  ghost predicate Stamped(fills: seq<Fill>, msgs: seq<FeedMessage>) {
    forall f | f in fills :: exists m :: m in msgs && Enters(m) && m.sequence == f.timestamp
  }

  lemma MarketFillsStep(msgs: seq<FeedMessage>, m: FeedMessage)
    ensures MarketRun(msgs + [m]).fills ==
            MarketRun(msgs).fills + Apply(BookFor(MarketRun(msgs).engines, m.symbolPacked), m).fills
  {
  }

  lemma {:induction false} MarketInOrder(msgs: seq<FeedMessage>)
    requires Increasing(msgs)
    ensures InOrder(MarketRun(msgs).fills) && Stamped(MarketRun(msgs).fills, msgs)
  {
    if msgs != [] {
      var init, m := msgs[..|msgs| - 1], msgs[|msgs| - 1];
      assert msgs == init + [m];
      hide MarketRun, Apply;
      MarketInOrder(init);
      MarketFillsStep(init, m);
      var b := BookFor(MarketRun(init).engines, m.symbolPacked);
      ApplyStamps(b, m);
      StampedLater(MarketRun(init).fills, Apply(b, m).fills, init, m);
    }
  }

  lemma StampedLater(earlier: seq<Fill>, later: seq<Fill>, msgs: seq<FeedMessage>, m: FeedMessage)
    requires InOrder(earlier) && Stamped(earlier, msgs) && Increasing(msgs + [m])
    requires (forall f | f in later :: f.timestamp == m.sequence) && (!Enters(m) ==> later == [])
    ensures InOrder(earlier + later) && Stamped(earlier + later, msgs + [m])
    ensures later != [] ==> At(earlier, m.sequence) == []
  {
    var all := msgs + [m];
    forall i | 0 <= i < |earlier|
      ensures (exists x :: x in all && Enters(x) && x.sequence == earlier[i].timestamp)
      ensures later != [] ==> earlier[i].timestamp < m.sequence
    {
      assert earlier[i] in earlier;
      var x :| x in msgs && Enters(x) && x.sequence == earlier[i].timestamp;
      var j :| 0 <= j < |msgs| && msgs[j] == x;
      assert all[j] == x && all[|msgs|] == m;
    }
    if later != [] {
      AtNone(earlier, m.sequence);
    }
    forall f | f in earlier + later ensures exists x :: x in all && Enters(x) && x.sequence == f.timestamp {
      if f in later {
        assert m in all;
      }
    }
  }

  /** At every time, the shards' fills and the one-thread run's fills are the same. */
  lemma {:induction false} FillsAgree(capacity: nat, msgs: seq<FeedMessage>, n: nat, t: u64)
    requires PoolsSuffice(capacity, msgs, n) && Increasing(msgs)
    ensures At(FillsOf(capacity, msgs, n, n), t) == At(MarketRun(msgs).fills, t)
  {
    if msgs == [] {
      FillsEmpty(capacity, n, n);
    } else {
      hide ShardIndex, Routed, ShardRun, MarketRun, Apply, BooksAgree, PoolsSuffice, FillsOf, At, Stamped;
      var init, m := msgs[..|msgs| - 1], msgs[|msgs| - 1];
      assert msgs == init + [m];
      PoolsSufficeInit(capacity, init, m, n);
      FillsAgree(capacity, init, n, t);
      BooksStayEqual(capacity, init, n);
      FillsAgreeStep(capacity, init, m, n, t);
    }
  }

  lemma FillsAgreeStep(capacity: nat, msgs: seq<FeedMessage>, m: FeedMessage, n: nat, t: u64)
    requires n > 0 && BooksAgree(capacity, msgs, n) && Increasing(msgs + [m])
    requires !Dropped(m, ShardRun(capacity, Routed(msgs, ShardIndex(m.symbolPacked, n), n)).free)
    requires At(FillsOf(capacity, msgs, n, n), t) == At(MarketRun(msgs).fills, t)
    ensures At(FillsOf(capacity, msgs + [m], n, n), t) == At(MarketRun(msgs + [m]).fills, t)
  {
    assert Increasing(msgs) by {
      IncreasingInit(msgs, m);
    }
    hide ShardIndex, Routed, ShardRun, MarketRun, Apply, BooksAgree, FillsOf, At, Stamped, Increasing, InOrder;
    MarketInOrder(msgs);
    var b := BookFor(MarketRun(msgs).engines, m.symbolPacked);
    var f := Apply(b, m).fills;
    ApplyStamps(b, m);
    MarketFillsStep(msgs, m);
    AtConcat(MarketRun(msgs).fills, f, t);
    StampedLater(MarketRun(msgs).fills, f, msgs, m);
    if t == m.sequence && f != [] {
      PiecesEmpty(capacity, msgs, n, n, t);
    } else {
      AtNone(f, t);
    }
    FillsStep(capacity, msgs, m, n, n, t);
  }

  lemma IncreasingInit(msgs: seq<FeedMessage>, m: FeedMessage)
    requires Increasing(msgs + [m])
    ensures Increasing(msgs)
  {
    var all := msgs + [m];
    forall i, j | 0 <= i < j < |msgs| && Enters(msgs[i]) && Enters(msgs[j])
      ensures msgs[i].sequence < msgs[j].sequence
    {
      assert all[i] == msgs[i] && all[j] == msgs[j];
    }
  }

  lemma {:induction false} AllFillsOf(shards: seq<Shard>, capacity: nat, msgs: seq<FeedMessage>, n: nat)
    requires n > 0 && forall i | 0 <= i < |shards| :: shards[i].state == ShardRun(capacity, Routed(msgs, i, n))
    ensures AllFills(shards) == FillsOf(capacity, msgs, |shards|, n)
  {
    hide ShardRun, Routed;
    if shards != [] {
      AllFillsOf(shards[..|shards| - 1], capacity, msgs, n);
    }
  }

  /** For every number of shards and every schedule: with strictly increasing sequence numbers and pools that suffice,
      the fills collected after `stop` are those of one thread running one engine per symbol over the messages routed
      before it. */
  lemma CollectedIsSequential(states: seq<System>, capacity: nat, n: nat, collected: seq<Fill>)
    requires IsRun(states, capacity) && n < |states| && states[n].phase.Stopped?
    requires Increasing(BeforeStop(states[n])) && PoolsSuffice(capacity, BeforeStop(states[n]), |states[n].shards|)
    requires StableSorted(AllFills(states[n].shards), collected)
    ensures collected == MarketRun(BeforeStop(states[n])).fills
  {
    var s := states[n];
    var before := BeforeStop(s);
    hide IsRun, ShardRun, Routed, MarketRun, AllFills, Increasing, PoolsSuffice, At;
    StopFinishesAll(states, capacity, n);
    AllFillsOf(s.shards, capacity, before, |s.shards|);
    MarketInOrder(before);
    forall t ensures At(collected, t) == At(MarketRun(before).fills, t) {
      FillsAgree(capacity, before, |s.shards|, t);
    }
    SortUnique(collected, MarketRun(before).fills);
  }

  lemma NeverDroppedStep(capacity: nat, msgs: seq<FeedMessage>, m: FeedMessage)
    requires NeverDropped(capacity, msgs) && !Dropped(m, ShardRun(capacity, msgs).free)
    ensures NeverDropped(capacity, msgs + [m])
  {
    hide ShardRun;
    var all := msgs + [m];
    forall i | 0 <= i < |all| ensures !Dropped(all[i], ShardRun(capacity, all[..i]).free) {
      if i < |msgs| {
        assert all[i] == msgs[i] && all[..i] == msgs[..i];
      } else {
        assert all[..i] == msgs;
      }
    }
  }

  lemma ShardTakes(s: ShardState, m: FeedMessage)
    requires BooksOk(s.engines)
    ensures ServeShard(s, m).free >= s.free - Takes(m)
  {
    hide Serve, BookOk;
    ServeTakes(Desk(BookFor(s.engines, m.symbolPacked), s.free, s.fills), m);
  }

  lemma NoneDropped(capacity: nat)
    ensures NeverDropped(capacity, []) && ShardRun(capacity, []).free == capacity
  {
  }

  /** A slot for every ADD of the shard is enough. */
  lemma {:induction false} SlotsSuffice(capacity: nat, msgs: seq<FeedMessage>)
    requires Adds(msgs) <= capacity
    ensures NeverDropped(capacity, msgs)
    ensures ShardRun(capacity, msgs).free >= capacity - Adds(msgs)
  {
    hide ShardRun, ServeShard, Adds, NeverDropped;
    if msgs == [] {
      NoneDropped(capacity);
    } else {
      var init, m := msgs[..|msgs| - 1], msgs[|msgs| - 1];
      assert init + [m] == msgs;
      AddsStep(init, m);
      SlotsSuffice(capacity, init);
      NeverDroppedStep(capacity, init, m);
      ShardRunStep(capacity, init, m);
      ShardTakes(ShardRun(capacity, init), m);
    }
  }
}
