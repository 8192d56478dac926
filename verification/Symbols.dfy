/** Each symbol on its own: what the sharded engine delivers for a symbol is what one engine, and so the reference
    matcher, makes of that symbol's messages (include/matching/ShardedEngine.h). */
module Symbols {
  import opened Protocol
  import opened Ladders
  import opened BookInvariants
  import opened Capacity
  import opened Sharded
  import opened Collect
  import Refinement
  import R = Reference

  function OfSymbol(msgs: seq<FeedMessage>, symbol: u64): seq<FeedMessage> {
    if msgs == [] then []
    else
      var init, m := OfSymbol(msgs[..|msgs| - 1], symbol), msgs[|msgs| - 1];
      if m.symbolPacked == symbol then init + [m] else init
  }

  function FillsOn(fills: seq<Fill>, symbol: u64): seq<Fill> {
    if fills == [] then []
    else
      var init, f := FillsOn(fills[..|fills| - 1], symbol), fills[|fills| - 1];
      if f.symbolPacked == symbol then init + [f] else init
  }

  lemma OfSymbolStep(msgs: seq<FeedMessage>, m: FeedMessage, symbol: u64)
    ensures OfSymbol(msgs + [m], symbol) == OfSymbol(msgs, symbol) + if m.symbolPacked == symbol then [m] else []
  {
  }

  lemma {:induction false} FillsOnConcat(a: seq<Fill>, b: seq<Fill>, symbol: u64)
    ensures FillsOn(a + b, symbol) == FillsOn(a, symbol) + FillsOn(b, symbol)
  {
    if b == [] {
      assert a + b == a;
    } else {
      assert (a + b)[..|a + b| - 1] == a + b[..|b| - 1];
      FillsOnConcat(a, b[..|b| - 1], symbol);
    }
  }

  ghost predicate FillsAre(fills: seq<Fill>, symbol: u64) {
    forall f | f in fills :: f.symbolPacked == symbol
  }

  lemma {:induction false} FillsOnUniform(fills: seq<Fill>, s: u64, symbol: u64)
    requires FillsAre(fills, s)
    ensures FillsOn(fills, symbol) == if s == symbol then fills else []
  {
    if fills != [] {
      FillsOnUniform(fills[..|fills| - 1], s, symbol);
      assert fills == fills[..|fills| - 1] + [fills[|fills| - 1]];
    }
  }

  // --- An engine only meets its own symbol -----------------------------------------------------

  ghost predicate BookIs(b: Book, symbol: u64) {
    forall t | Holds(b, t) :: t.symbolPacked == symbol
  }

  lemma {:induction false} MatchNames(l: Ladder, taker: Ticket, respectPrice: bool, ts: u64)
    requires WellFormed(l, taker.side.Opposite())
    ensures FillsAre(Match(l, taker, respectPrice, ts).fills, taker.symbolPacked)
    decreases taker.Remaining()
  {
    if CanTrade(l, taker, respectPrice) {
      var p := BestPrice(l, taker.side);
      assert LevelOk(l[p], taker.side.Opposite(), p) && l[p][0] in l[p];
      var q := Min(taker.Remaining(), l[p][0].Remaining());
      ConsumeWellFormed(l, taker.side.Opposite(), p, q);
      MatchNames(Consume(l, p, q), taker.Take(q), respectPrice, ts);
    }
  }

  lemma SubmitNames(b: Book, t: Ticket, ty: OrderType, ts: u64)
    requires BookOk(b) && (ty != MARKET ==> t.price != 0) && BookIs(b, t.symbolPacked)
    ensures var r := Submit(b, t, ty, ts);
            FillsAre(r.fills, t.symbolPacked) && BookIs(r.book, t.symbolPacked)
  {
    hide Match, WellFormed, FillsAre;
    var opp := t.side.Opposite();
    MatchNames(b.On(opp), t, ty != MARKET, ts);
    MatchShrinksBook(b, t, ty != MARKET, ts);
    var m := Match(b.On(opp), t, ty != MARKET, ts);
    var left := b.With(opp, m.ladder);
    forall u | Holds(left, u) ensures u.symbolPacked == t.symbolPacked {
      var v := ShrunkHolds(b, left, u);
    }
    RestHolds(left, m.taker);
    NoNames(t.symbolPacked);
  }

  lemma NoNames(symbol: u64)
    ensures FillsAre([], symbol) && BookIs(EMPTY_BOOK, symbol)
  {
  }

  lemma ApplyNames(b: Book, m: FeedMessage)
    requires BookOk(b) && BookIs(b, m.symbolPacked)
    ensures FillsAre(Apply(b, m).fills, m.symbolPacked) && BookIs(Apply(b, m).book, m.symbolPacked)
  {
    hide Submit, FillsAre, BookOk;
    NoNames(m.symbolPacked);
    if IsValidFeedMessage(m) {
      if m.msgType == ADD {
        SubmitNames(b, TicketOf(m), TypeOf(m.orderType), m.sequence);
      } else {
        CancelRemoves(b, Cancel(b, m.orderId), m.orderId);
        if m.msgType == MODIFY && Contains(b, m.orderId) {
          var t := Find(b, m.orderId).(price := m.price, qty := m.qty, filledQty := 0);
          SubmitNames(Cancel(b, m.orderId), t, LIMIT, m.sequence);
        }
      }
    }
  }

  lemma {:induction false} EnginesKeepToTheirSymbol(msgs: seq<FeedMessage>, symbol: u64)
    ensures BookIs(BookFor(MarketRun(msgs).engines, symbol), symbol)
  {
    if msgs == [] {
      NoNames(symbol);
    } else {
      hide MarketRun, Apply, BookIs, BookOk;
      var init, m := msgs[..|msgs| - 1], msgs[|msgs| - 1];
      assert msgs == init + [m];
      EnginesKeepToTheirSymbol(init, symbol);
      MarketStep(init, m);
      if m.symbolPacked == symbol {
        ApplyNames(BookFor(MarketRun(init).engines, symbol), m);
      }
    }
  }

  // --- Symbol by symbol ------------------------------------------------------------------------

  /** The one-thread run over all symbols is, symbol by symbol, the run of one engine over that symbol's messages. */
  lemma {:induction false} MarketBySymbol(msgs: seq<FeedMessage>, symbol: u64)
    ensures var own := Run(EMPTY_BOOK, OfSymbol(msgs, symbol));
            BookFor(MarketRun(msgs).engines, symbol) == own.book && FillsOn(MarketRun(msgs).fills, symbol) == own.fills
  {
    if msgs != [] {
      hide MarketRun, Run, Apply, BookOk, OfSymbol, FillsOn, FillsAre, BookIs;
      var init, m := msgs[..|msgs| - 1], msgs[|msgs| - 1];
      assert msgs == init + [m];
      MarketBySymbol(init, symbol);
      MarketBySymbolStep(init, m, symbol);
    }
  }

  lemma MarketBySymbolStep(msgs: seq<FeedMessage>, m: FeedMessage, symbol: u64)
    requires var own := Run(EMPTY_BOOK, OfSymbol(msgs, symbol));
             BookFor(MarketRun(msgs).engines, symbol) == own.book && FillsOn(MarketRun(msgs).fills, symbol) == own.fills
    ensures var own := Run(EMPTY_BOOK, OfSymbol(msgs + [m], symbol));
            && BookFor(MarketRun(msgs + [m]).engines, symbol) == own.book
            && FillsOn(MarketRun(msgs + [m]).fills, symbol) == own.fills
  {
    hide MarketRun, Run, Apply, BookOk, OfSymbol, FillsOn, FillsAre, BookIs;
    OfSymbolStep(msgs, m, symbol);
    MarketStep(msgs, m);
    MarketFillsStep(msgs, m);
    var b := BookFor(MarketRun(msgs).engines, m.symbolPacked);
    EnginesKeepToTheirSymbol(msgs, m.symbolPacked);
    ApplyNames(b, m);
    FillsOnConcat(MarketRun(msgs).fills, Apply(b, m).fills, symbol);
    FillsOnUniform(Apply(b, m).fills, m.symbolPacked, symbol);
    if m.symbolPacked == symbol {
      RunStep(EMPTY_BOOK, OfSymbol(msgs, symbol), m);
      InvalidChangesNothing(b, m);
    } else {
      assert OfSymbol(msgs, symbol) + [] == OfSymbol(msgs, symbol);
      assert FillsOn(MarketRun(msgs).fills, symbol) + [] == FillsOn(MarketRun(msgs).fills, symbol);
    }
  }

  lemma InvalidChangesNothing(b: Book, m: FeedMessage)
    requires BookOk(b)
    ensures !IsValidFeedMessage(m) ==> Apply(b, m) == Outcome(b, [])
  {
  }

  /** The messages of one symbol are in order if all are. */
  lemma {:induction false} OwnMessagesOrdered(msgs: seq<FeedMessage>, symbol: u64)
    requires Increasing(msgs)
    ensures Refinement.Ordered(OfSymbol(msgs, symbol)) && forall m | m in OfSymbol(msgs, symbol) :: m in msgs
  {
    if msgs != [] {
      var init, m := msgs[..|msgs| - 1], msgs[|msgs| - 1];
      assert msgs == init + [m];
      IncreasingInit(init, m);
      OwnMessagesOrdered(init, symbol);
      var own := OfSymbol(init, symbol);
      forall i | 0 <= i < |own| && Rests(own[i]) && Rests(m) ensures own[i].sequence <= m.sequence {
        assert own[i] in own;
        var j :| 0 <= j < |init| && init[j] == own[i];
        assert msgs[j] == own[i] && msgs[|init|] == m;
      }
    }
  }

  /** Every schedule, any number of shards: what is collected after `stop` for a symbol is exactly what the reference
      matcher makes of that symbol's messages routed before. */
  lemma CollectedIsReference(states: seq<System>, capacity: nat, n: nat, collected: seq<Fill>, symbol: u64)
    requires IsRun(states, capacity) && n < |states| && states[n].phase.Stopped?
    requires Increasing(BeforeStop(states[n])) && PoolsSuffice(capacity, BeforeStop(states[n]), |states[n].shards|)
    requires StableSorted(AllFills(states[n].shards), collected)
    ensures var own := OfSymbol(BeforeStop(states[n]), symbol);
            FillsOn(collected, symbol) == R.Run([], Refinement.Accepted(EMPTY_BOOK, own)).fills
  {
    hide IsRun, PoolsSuffice, StableSorted, Increasing, MarketRun, Run, R.Run, Refinement.Accepted, OfSymbol, FillsOn;
    var before := BeforeStop(states[n]);
    CollectedIsSequential(states, capacity, n, collected);
    MarketBySymbol(before, symbol);
    OwnMessagesOrdered(before, symbol);
    Refinement.EngineRefinesReference(OfSymbol(before, symbol));
  }
}
