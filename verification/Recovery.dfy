/** Recovery: replay the feed, compare with the journal and the store, rebuild the store
    (include/replay/RecoveryReconciler.h). */
module Recovery {
  import opened Protocol
  import opened Ladders
  import opened Slab
  import opened MatchingEngines
  import opened Capacity
  import opened Replay
  import R = Reference
  import Refinement

  datatype Error = InvalidMessage | PoolExhausted
  datatype Result<T> = Ok(value: T) | Err(error: Error)

  ghost function Start(capacity: nat): (d: Desk)
    ensures BookOk(d.book)
  {
    Desk(EMPTY_BOOK, capacity, [])
  }

  /** What stops a recovery replay at message `m`. */
  ghost predicate Stops(m: FeedMessage, free: nat, error: Error) {
    if !IsValidFeedMessage(m) then error == InvalidMessage else error == PoolExhausted && Dropped(m, free)
  }

  /** Message `i` of the feed does not stop the replay. */
  ghost predicate Passes(capacity: nat, feed: seq<FeedMessage>, i: nat)
    requires i < |feed|
  {
    IsValidFeedMessage(feed[i]) && !Dropped(feed[i], ServeAll(Start(capacity), feed[..i]).free)
  }

  /** None of the first `n` messages stops the replay. */
  ghost predicate Clean(capacity: nat, feed: seq<FeedMessage>, n: nat)
    requires n <= |feed|
  {
    forall i | 0 <= i < n :: Passes(capacity, feed, i)
  }

  lemma PassesAt(capacity: nat, feed: seq<FeedMessage>, n: nat, i: nat)
    requires i < n <= |feed| && Clean(capacity, feed, n)
    ensures Clean(capacity, feed, i)
    ensures IsValidFeedMessage(feed[i]) && !Dropped(feed[i], ServeAll(Start(capacity), feed[..i]).free)
  {
    assert Passes(capacity, feed, i);
  }

  lemma {:induction false} CleanServed(capacity: nat, feed: seq<FeedMessage>, n: nat)
    requires n <= |feed| && Clean(capacity, feed, n)
    ensures Served(Start(capacity), feed[..n]) == feed[..n]
  {
    if n > 0 {
      hide *;
      var init, m := feed[..n - 1], feed[n - 1];
      assert init + [m] == feed[..n];
      ServedStep(Start(capacity), init, m);
      PassesAt(capacity, feed, n, n - 1);
      CleanServed(capacity, feed, n - 1);
    }
  }

  /** With a slot per message, only an invalid message can stop the replay. */
  lemma CleanWhenValid(capacity: nat, feed: seq<FeedMessage>)
    requires |feed| <= capacity
    ensures Clean(capacity, feed, |feed|) <==> forall i | 0 <= i < |feed| :: IsValidFeedMessage(feed[i])
  {
    hide Capacity.ServeAll, Served;
    forall i | 0 <= i < |feed| ensures Passes(capacity, feed, i) <==> IsValidFeedMessage(feed[i]) {
      AddsBound(feed[..i]);
      EnoughSlots(Start(capacity), feed[..i]);
    }
  }

  lemma {:induction false} AddsBound(feed: seq<FeedMessage>)
    ensures Adds(feed) <= |feed|
  {
    if feed != [] {
      AddsBound(feed[..|feed| - 1]);
    }
  }

  lemma ServeNext(d: Desk, feed: seq<FeedMessage>, i: nat)
    requires BookOk(d.book) && i < |feed|
    ensures var before, after := ServeAll(d, feed[..i]), ServeAll(d, feed[..i + 1]);
            && Serve(before.(fills := []), feed[i]).(fills := []) == after.(fills := [])
            && after.fills == before.fills + Serve(before.(fills := []), feed[i]).fills
  {
    hide Ladders.Apply, Ladders.BookOk;
    assert feed[..i + 1][..i] == feed[..i];
    var before := ServeAll(d, feed[..i]);
    assert [] + Apply(before.book, feed[i]).fills == Apply(before.book, feed[i]).fills;
  }

  /** One message of the feed: an error that `Stops` explains, or the fills that it adds. */
  method ReplayNext(engine: MatchingEngine, ghost capacity: nat, feed: seq<FeedMessage>, i: nat)
    returns (r: Result<seq<Fill>>)
    requires i < |feed| && engine.Valid() && engine.fills == []
    requires DeskOf(engine) == ServeAll(Start(capacity), feed[..i]).(fills := [])
    modifies engine`fills, engine`currentSeq, engine.pool, engine.book
    ensures r.Ok? <==> Passes(capacity, feed, i)
    ensures r.Err? ==> Stops(feed[i], ServeAll(Start(capacity), feed[..i]).free, r.error)
    ensures r.Ok? ==>
              && engine.Valid() && engine.fills == []
              && DeskOf(engine) == ServeAll(Start(capacity), feed[..i + 1]).(fills := [])
              && ServeAll(Start(capacity), feed[..i + 1]).fills == ServeAll(Start(capacity), feed[..i]).fills + r.value
  {
    hide OrderBooks.Sane, Slab.FreeChain, Ladders.Apply, Ladders.WellFormed, Ladders.BookOk, Capacity.Serve,
         Capacity.ServeAll, Start;
    ServeNext(Start(capacity), feed, i);
    if !IsValidFeedMessage(feed[i]) {
      return Err(InvalidMessage);
    }
    var dropped, found, batch := DeliverAndDrain(engine, feed[i]);
    if dropped {
      return Err(PoolExhausted);
    }
    return Ok(batch);
  }

  /** The capacity the replay uses when none is asked for. */
  function PoolSize(asked: nat, messages: nat): nat {
    if asked != 0 then asked else messages + 1024
  }

  lemma CleanFills(capacity: nat, feed: seq<FeedMessage>)
    requires Clean(capacity, feed, |feed|)
    ensures ServeAll(Start(capacity), feed).fills == Run(EMPTY_BOOK, feed).fills
    ensures Refinement.Ordered(feed) ==>
            Run(EMPTY_BOOK, feed).fills == R.Run([], Refinement.Accepted(EMPTY_BOOK, feed)).fills
  {
    hide ServeAll, Clean, Ladders.Run, R.Run, Refinement.Accepted, Refinement.Ordered;
    assert feed[..|feed|] == feed;
    CleanServed(capacity, feed, |feed|);
    ServeAllIsRun(Start(capacity), feed);
    assert [] + Run(EMPTY_BOOK, feed).fills == Run(EMPTY_BOOK, feed).fills;
    if Refinement.Ordered(feed) {
      Refinement.EngineRefinesReference(feed);
    }
  }

  method NewEngine(capacity: nat) returns (engine: MatchingEngine)
    requires capacity < TWO_32
    ensures engine.Valid() && engine.fills == [] && DeskOf(engine) == Start(capacity)
    ensures fresh(engine) && fresh(engine.pool) && fresh(engine.book)
  {
    hide OrderBooks.Sane, Slab.FreeChain, Ladders.WellFormed;
    var pool := new SlabPool(capacity);
    engine := new MatchingEngine(pool);
    SlotSplit(engine);
  }

  /** The fills of the whole feed, or the error of the first message that stops the replay. */
  method ReplayFills(feed: seq<FeedMessage>, poolCapacity: nat) returns (r: Result<seq<Fill>>)
    requires PoolSize(poolCapacity, |feed|) < TWO_32
    ensures r.Ok? <==> Clean(PoolSize(poolCapacity, |feed|), feed, |feed|)
    ensures poolCapacity == 0 ==> (r.Ok? <==> forall i | 0 <= i < |feed| :: IsValidFeedMessage(feed[i]))
    ensures r.Ok? ==> r.value == Run(EMPTY_BOOK, feed).fills
    ensures r.Ok? && Refinement.Ordered(feed) ==> r.value == R.Run([], Refinement.Accepted(EMPTY_BOOK, feed)).fills
    ensures r.Err? ==> exists i | 0 <= i < |feed| ::
                         && Clean(PoolSize(poolCapacity, |feed|), feed, i)
                         && !Passes(PoolSize(poolCapacity, |feed|), feed, i)
                         && Stops(feed[i], ServeAll(Start(PoolSize(poolCapacity, |feed|)), feed[..i]).free, r.error)
  {
    hide OrderBooks.Sane, Slab.FreeChain, Ladders.Apply, Ladders.WellFormed, Capacity.Serve, Stops, Passes;
    var capacity := PoolSize(poolCapacity, |feed|);
    if poolCapacity == 0 {
      CleanWhenValid(capacity, feed);
    }
    var engine := NewEngine(capacity);
    var fills := [];
    assert feed[..0] == [];
    hide ServeAll, DeskOf, Start, Refinement.Ordered, Refinement.Accepted, Ladders.Run, R.Run;
    for i := 0 to |feed|
      invariant engine.Valid() && engine.fills == []
      invariant DeskOf(engine) == ServeAll(Start(capacity), feed[..i]).(fills := [])
      invariant fills == ServeAll(Start(capacity), feed[..i]).fills
      invariant Clean(capacity, feed, i)
    {
      r := ReplayNext(engine, capacity, feed, i);
      if r.Err? {
        return;
      }
      fills := fills + r.value;
    }
    assert feed[..|feed|] == feed;
    CleanFills(capacity, feed);
    r := Ok(fills);
  }
}
