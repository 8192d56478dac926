/** Comparing a replay of the feed with the journal and the store, and rebuilding the store
    (include/replay/RecoveryReconciler.h). */
module Reconcile {
  import opened Protocol
  import opened Ladders
  import opened TradeStores
  import Journals
  import Recovery
  import PipelineWorker

  datatype Failure = ReplayFailed(error: Recovery.Error) | JournalFailed(cause: Journals.Error) | StoreFailed
  datatype Outcome<T> = Success(value: T) | Failure(failure: Failure)

  datatype Report = Report(
    replayFills: nat, journalFills: nat, storeTrades: nat, journalMatches: bool, storeCountMatches: bool,
    storeVwapMatches: bool, replayVwap: real, storeVwap: real)
  {
    predicate Ok() {
      journalMatches && storeCountMatches && storeVwapMatches
    }
  }

  method SameFills(fills: seq<Fill>, records: seq<Journals.FillRecord>) returns (same: bool)
    ensures same <==> records == Journals.RecordsOf(fills)
  {
    if |fills| != |records| {
      return false;
    }
    for i := 0 to |fills|
      invariant forall j | 0 <= j < i :: records[j] == Journals.RecordOf(fills[j])
    {
      if fills[i].buyOrderId != records[i].buyOrderId || fills[i].sellOrderId != records[i].sellOrderId ||
         fills[i].price != records[i].price || fills[i].qty != records[i].qty ||
         fills[i].timestamp != records[i].timestamp || fills[i].symbolPacked != records[i].symbolPacked
      {
        assert records[i] != Journals.RecordsOf(fills)[i];
        return false;
      }
    }
    return true;
  }

  /** The timestamps of the fills span exactly `first` to `last`; both are zero when there are none. */
  ghost predicate Spans(fills: seq<Fill>, first: u64, last: u64) {
    if fills == [] then first == last == 0
    else
      && (forall f | f in fills :: first <= f.timestamp <= last)
      && (exists f | f in fills :: f.timestamp == first) && (exists f | f in fills :: f.timestamp == last)
  }

  method ReplayVwap(fills: seq<Fill>) returns (r: real, beginTs: u64, endTs: u64)
    ensures r == Vwap(fills) && Spans(fills, beginTs, endTs)
  {
    hide Value, Wrapped, Notional, Quantity, Average;
    NoTrades();
    if fills == [] {
      return 0.0, 0, 0;
    }
    hide Spans;
    beginTs, endTs := TWO_64 - 1, 0;
    var notional, qty := 0, 0;
    ghost var seen: seq<Fill> := [];
    for i := 0 to |fills|
      invariant seen == fills[..i] && notional == Notional(seen) && qty == Wrapped(Quantity(seen))
      invariant if i == 0 then beginTs == TWO_64 - 1 && endTs == 0 else Spans(seen, beginTs, endTs)
    {
      var f := fills[i];
      TakeOne(seen, f);
      SpansMore(seen, f, beginTs, endTs);
      seen := seen + [f];
      beginTs := if f.timestamp < beginTs then f.timestamp else beginTs;
      endTs := if f.timestamp > endTs then f.timestamp else endTs;
      notional, qty := notional + Value(f), Wrapped(qty + f.qty);
    }
    assert fills[..|fills|] == fills;
    r := Average(notional, qty);
  }

  lemma SpansMore(s: seq<Fill>, f: Fill, first: u64, last: u64)
    requires if s == [] then first == TWO_64 - 1 && last == 0 else Spans(s, first, last)
    ensures Spans(s + [f], if f.timestamp < first then f.timestamp else first,
                  if f.timestamp > last then f.timestamp else last)
  {
  }

  /** A range that covers every trade selects every trade. */
  lemma {:induction false} SelectCovers(trades: seq<Fill>, beginTs: u64, endTs: u64)
    requires forall f | f in trades :: beginTs <= f.timestamp <= endTs
    ensures Select(trades, Any, beginTs, endTs) == trades
  {
    if trades != [] {
      SelectCovers(trades[..|trades| - 1], beginTs, endTs);
      assert trades == trades[..|trades| - 1] + [trades[|trades| - 1]];
    }
  }

  function Abs(x: real): real {
    if x < 0.0 then -x else x
  }

  /** A report says of each check whether it holds. */
  ghost predicate Describes(r: Report, replayed: seq<Fill>, records: seq<Journals.FillRecord>, trades: seq<Fill>) {
    && r.replayFills == |replayed| && r.journalFills == |records| && r.storeTrades == |trades|
    && (r.journalMatches <==> records == Journals.RecordsOf(replayed))
    && (r.storeCountMatches <==> |trades| == |replayed|)
    && r.replayVwap == Vwap(replayed)
    && (exists first, last :: Spans(replayed, first, last) && r.storeVwap == Vwap(Select(trades, Any, first, last)))
    && (r.storeVwapMatches <==> Abs(r.replayVwap - r.storeVwap) < 0.000000001)
  }

  method Reconcile(feed: seq<FeedMessage>, journal: Journals.File, storeFile: File, poolCapacity: nat)
    returns (r: Outcome<Report>)
    requires Recovery.PoolSize(poolCapacity, |feed|) < TWO_32
    ensures r.Success? <==>
              && Recovery.Clean(Recovery.PoolSize(poolCapacity, |feed|), feed, |feed|)
              && Journals.Replay(journal).Ok? && Read(storeFile).Ok?
    ensures r.Success? ==>
              var replayed, trades := Run(EMPTY_BOOK, feed).fills, Read(storeFile).value;
              && Describes(r.value, replayed, Journals.Replay(journal).value, trades)
              && (r.value.Ok() <==>
                    && Journals.Replay(journal).value == Journals.RecordsOf(replayed)
                    && |trades| == |replayed| && SameAverage(replayed, trades))
  {
    hide Vwap, Select, Spans, Journals.RecordsOf, Run, Recovery.Clean;
    var replay := Recovery.ReplayFills(feed, poolCapacity);
    if replay.Err? {
      return Failure(ReplayFailed(replay.error));
    }
    var replayed := replay.value;
    var records := Journals.Replay(journal);
    if records.Err? {
      return Failure(JournalFailed(records.error));
    }
    var store := TradeStore.Load(storeFile);
    if store.Err? {
      return Failure(StoreFailed);
    }
    var same := SameFills(replayed, records.value);
    var replayVwap, beginTs, endTs := ReplayVwap(replayed);
    var storeVwap := store.value.VwapBetween(beginTs, endTs);
    var count := |store.value.trades|;
    r := Success(Report(|replayed|, |records.value|, count, same, count == |replayed|,
                        Abs(replayVwap - storeVwap) < 0.000000001, replayVwap, storeVwap));
    GoodReportIff(r.value, replayed, records.value, store.value.trades);
  }

  /** Over the time span of the replayed fills, the average of the trades is less than a billionth away from that of the
      fills. */
  ghost predicate SameAverage(replayed: seq<Fill>, trades: seq<Fill>) {
    forall first, last | Spans(replayed, first, last) ::
      -0.000000001 < Vwap(replayed) - Vwap(Select(trades, Any, first, last)) < 0.000000001
  }

  lemma SpansOnce(fills: seq<Fill>, first: u64, last: u64, first': u64, last': u64)
    requires Spans(fills, first, last) && Spans(fills, first', last')
    ensures first == first' && last == last'
  {
  }

  /** A report is good exactly if the journal equals the replay, the store has as many trades as the replay has fills,
      and the averages agree. */
  lemma GoodReportIff(r: Report, replayed: seq<Fill>, records: seq<Journals.FillRecord>, trades: seq<Fill>)
    requires Describes(r, replayed, records, trades)
    ensures r.Ok() <==>
              && records == Journals.RecordsOf(replayed) && |trades| == |replayed| && SameAverage(replayed, trades)
  {
    hide Vwap, Select, Spans, Journals.RecordsOf;
    var first, last :| Spans(replayed, first, last) && r.storeVwap == Vwap(Select(trades, Any, first, last));
    forall first', last' | Spans(replayed, first', last') ensures first' == first && last' == last {
      SpansOnce(replayed, first, last, first', last');
    }
  }

  // --- A store with one altered price ----------------------------------------------------------

  function Repriced(fills: seq<Fill>, i: nat, price: u32): seq<Fill>
    requires i < |fills|
  {
    fills[i := fills[i].(price := price)]
  }

  lemma {:induction false} RepricedSums(fills: seq<Fill>, i: nat, price: u32)
    requires i < |fills|
    ensures Quantity(Repriced(fills, i, price)) == Quantity(fills)
    ensures Notional(Repriced(fills, i, price)) + fills[i].price * fills[i].qty
            == Notional(fills) + price * fills[i].qty
  {
    var n := |fills| - 1;
    var init, init' := fills[..n], Repriced(fills, i, price)[..n];
    if i < n {
      assert init' == Repriced(init, i, price);
      RepricedSums(init, i, price);
    } else {
      assert init' == init;
    }
  }

  /** A quotient is below a billionth exactly if a billion dividends are below the divisor. */
  lemma QuotientBelow(d: int, w: nat)
    requires w > 0
    ensures d as real / w as real < 0.000000001 <==> d * 1_000_000_000 < w
  {
    var x, q: real, t := d as real, w as real, d as real / w as real;
    QuotientTimes(x, q);
    ScaledBelow(t, 0.000000001, q);
    BillionFold(x, q);
    BillionAsReal(d, w);
  }

  lemma BillionFold(x: real, q: real)
    ensures x < 0.000000001 * q <==> x * 1_000_000_000.0 < q
  {
  }

  lemma BillionAsReal(d: int, w: nat)
    ensures d as real * 1_000_000_000.0 < w as real <==> d * 1_000_000_000 < w
  {
    assert (d * 1_000_000_000) as real == d as real * 1_000_000_000.0;
  }

  /** Two quotients by the same divisor are less than a billionth apart exactly if the dividends are. */
  lemma QuotientsClose(n: nat, n': nat, w: nat)
    requires w > 0
    ensures -0.000000001 < n as real / w as real - n' as real / w as real < 0.000000001 <==>
            0 - w < (n - n') * 1_000_000_000 < w
  {
    var q: real := w as real;
    QuotientBelow(n - n', w);
    QuotientBelow(n' - n, w);
    QuotientOfDifference(n as real, n' as real, q);
    QuotientOfDifference(n' as real, n as real, q);
  }

  lemma QuotientOfDifference(a: real, b: real, q: real)
    requires q > 0.0
    ensures a / q - b / q == (a - b) / q
  {
  }

  lemma ScaledBelow(a: real, b: real, c: real)
    requires c > 0.0
    ensures a < b <==> a * c < b * c
  {
    if a < b {
      PositiveProduct(b - a, c);
      DifferenceTimes(b, a, c);
    } else if b < a {
      PositiveProduct(a - b, c);
      DifferenceTimes(a, b, c);
    }
  }

  lemma PositiveProduct(a: real, b: real)
    requires a > 0.0 && b > 0.0
    ensures a * b > 0.0
  {
  }

  lemma DifferenceTimes(a: real, b: real, c: real)
    ensures (a - b) * c == a * c - b * c
  {
  }

  /** When journal and replay agree and one price in the store has been altered, the report is bad exactly if the
      change in notional is at least a billionth of the quantity traded; a 64-bit quantity of zero hides every change.
      */
  lemma AlteredPriceIsBadIff(r: Report, fills: seq<Fill>, i: nat, price: u32)
    requires i < |fills| && Describes(r, fills, Journals.RecordsOf(fills), Repriced(fills, i, price))
    ensures var w := Quantity(fills) % TWO_64;
            var change := (price - fills[i].price) * fills[i].qty * 1_000_000_000;
            !r.Ok() <==> w != 0 && !(0 - w < change < w)
  {
    hide Spans, Vwap, Select, Journals.RecordsOf;
    var trades := Repriced(fills, i, price);
    var first, last :| Spans(fills, first, last) && r.storeVwap == Vwap(Select(trades, Any, first, last));
    RepricedSpan(fills, i, price, first, last);
    SelectCovers(trades, first, last);
    RepricedAverage(fills, i, price);
  }

  lemma RepricedAverage(fills: seq<Fill>, i: nat, price: u32)
    requires i < |fills|
    ensures var w := Quantity(fills) % TWO_64;
            var change := (price - fills[i].price) * fills[i].qty * 1_000_000_000;
            -0.000000001 < Vwap(fills) - Vwap(Repriced(fills, i, price)) < 0.000000001 <==>
            w == 0 || 0 - w < change < w
  {
    hide Notional, Quantity;
    var trades := Repriced(fills, i, price);
    RepricedSums(fills, i, price);
    var w := Wrapped(Quantity(fills));
    if w != 0 {
      QuotientsClose(Notional(fills), Notional(trades), w);
      Apart(Notional(fills), Notional(trades), fills[i].price, price, fills[i].qty);
    }
  }

  lemma Apart(n: int, n': int, p: int, p': int, q: int)
    requires n' + p * q == n + p' * q
    ensures (n - n') * 1_000_000_000 == -((p' - p) * q * 1_000_000_000)
  {
    assert (p' - p) * q == p' * q - p * q;
  }

  lemma RepricedSpan(fills: seq<Fill>, i: nat, price: u32, first: u64, last: u64)
    requires i < |fills| && Spans(fills, first, last)
    ensures forall f | f in Repriced(fills, i, price) :: first <= f.timestamp <= last
  {
    var trades := Repriced(fills, i, price);
    forall f | f in trades ensures first <= f.timestamp <= last {
      var k :| 0 <= k < |trades| && trades[k] == f;
      assert fills[k] in fills && fills[k].timestamp == f.timestamp;
    }
  }

  /** An altered price that no report shows: one of two fills at a price of 10 is stored with a price of 11, and its
      quantity is less than a billionth of the other's. */
  lemma AlteredPriceUnseen(r: Report, f: Fill, g: Fill)
    requires f.price == g.price == 10 && f.qty == 1 && g.qty == 4_000_000_000
    requires Describes(r, [f, g], Journals.RecordsOf([f, g]), Repriced([f, g], 0, 11))
    ensures r.Ok() && Repriced([f, g], 0, 11) != [f, g]
  {
    assert [f, g][..1] == [f] && [f][..0] == [];
    assert Quantity([f]) == 1;
    assert Quantity([f, g]) == 4_000_000_001;
    AlteredPriceIsBadIff(r, [f, g], 0, 11);
    assert Repriced([f, g], 0, 11)[0] != [f, g][0];
  }

  /** When the store holds the journal's records, the report is good exactly if the journal equals the replay. */
  lemma RebuiltStoreReconciles(r: Report, replayed: seq<Fill>, records: seq<Journals.FillRecord>)
    requires Describes(r, replayed, records, Journals.ToFills(records))
    ensures r.Ok() <==> records == Journals.RecordsOf(replayed)
  {
    if records == Journals.RecordsOf(replayed) {
      Journals.RecordsRoundTrip(replayed, records);
      var first, last :| Spans(replayed, first, last) && r.storeVwap == Vwap(Select(replayed, Any, first, last));
      SelectCovers(replayed, first, last);
    }
  }

  /** Succeeds exactly if the journal can be replayed, the store file can be read, and the rewrite is reported as done;
      the file is touched only if the first two hold. */
  method RebuildStoreFromJournal(journal: Journals.File, before: File, write: Write)
    returns (r: Outcome<nat>, after: File)
    ensures r.Success? <==> Journals.Replay(journal).Ok? && Read(before).Ok? && Reports(write)
    ensures r.Success? ==> r.value == |Journals.Replay(journal).value|
    ensures after == if Journals.Replay(journal).Ok? && Read(before).Ok?
                     then FileAfter(before, Journals.ToFills(Journals.Replay(journal).value), write) else before
  {
    var records := Journals.Replay(journal);
    if records.Err? {
      return Failure(JournalFailed(records.error)), before;
    }
    var fills := [];
    for i := 0 to |records.value|
      invariant fills == Journals.ToFills(records.value[..i])
    {
      fills := fills + [Journals.ToFill(records.value[i])];
    }
    assert records.value[..|records.value|] == records.value;
    var store := TradeStore.Load(before);
    if store.Err? {
      return Failure(StoreFailed), before;
    }
    var ok := store.value.ReplaceAll(fills, write);
    after := store.value.file;
    r := if ok then Success(|fills|) else Failure(StoreFailed);
  }

  /** Once a rebuild has reached the disk the store holds the journal's records, whatever it held before, and rebuilding
      again changes nothing. */
  method RebuildTwice(journal: Journals.File, before: File, write: Write, again: Write)
    returns (r: Outcome<nat>, once: File, twice: File)
    ensures var records := Journals.Replay(journal);
            records.Ok? && Read(before).Ok? && ReachedAll(write, Journals.ToFills(records.value)) ==>
              && Read(once) == Ok(Journals.ToFills(records.value)) && (r.Success? <==> Reports(again))
              && (ReachedAll(again, Journals.ToFills(records.value)) ==> twice == once)
  {
    if Journals.Replay(journal).Ok? {
      ReadAfterWrite(before, Journals.ToFills(Journals.Replay(journal).value), write);
    }
    r, once := RebuildStoreFromJournal(journal, before, write);
    r, twice := RebuildStoreFromJournal(journal, once, again);
  }

  /** Whether the store can be rebuilt after a flush depends on how far the flush's rewrite of the store file got:
      with the count but not all records on the disk, the file cannot be opened again and the rebuild fails; in every
      other case of a rewrite it goes through. */
  method FlushThenRebuild(journal: Journals.FillJournal, store: TradeStore, batch: seq<Fill>, synced: bool,
                          write: Write, rewrite: Write)
    returns (r: Outcome<nat>, after: File)
    requires journal.Valid() && store.Valid()
    modifies journal, journal.slots, store
    ensures journal.Valid() && store.Valid()
    ensures var flushed := |batch| <= old(journal.header.capacity - journal.header.records) && synced;
            var readable := if flushed && write.Wrote?
                            then write.reached.NoCount? || ReachedAll(write, old(store.trades) + batch)
                            else Read(old(store.file)).Ok?;
            && (r.Success? <==> readable && Reports(rewrite))
            && (readable && ReachedAll(rewrite, Journals.ToFills(journal.Contents())) ==>
                  Read(after) == Ok(Journals.ToFills(journal.Contents())))
  {
    ReadAfterWrite(store.file, store.trades + batch, write);
    var ok, persisted := PipelineWorker.FlushBatch(journal, store, batch, 0, synced, write);
    journal.ReplayIsContents();
    ReadAfterWrite(store.file, Journals.ToFills(journal.Contents()), rewrite);
    r, after := RebuildStoreFromJournal(journal.Mapped(), store.file, rewrite);
  }

  /** A store file that was written once more can be read exactly if that write got as far as all records, or not even
      as far as the count. */
  predicate Readable(before: File, r: PipelineWorker.Rewrite) {
    match r
    case Untouched => Read(before).Ok?
    case Rewritten(fills, write) => write.Wrote? && (write.reached.NoCount? || ReachedAll(write, fills))
  }

  /** A worker's whole life and then a rebuild. However the life ends, the journal has gained a prefix of the fills the
      worker was given, and the store can be rebuilt exactly by what the last rewrite of its file reached. */
  method WorkThenRebuild(journal: Journals.FillJournal, store: TradeStore, flushes: seq<PipelineWorker.Flush>,
                         rewrite: Write)
    returns (r: Outcome<nat>, after: File)
    requires journal.Valid() && store.Valid()
    modifies journal, journal.slots, store
    ensures journal.Valid() && store.Valid()
    ensures var room := old(journal.header.capacity - journal.header.records);
            var start := PipelineWorker.Life(room, [], old(store.trades), PipelineWorker.Untouched, true);
            var life := PipelineWorker.LifeOf(start, flushes);
            && life.journal <= PipelineWorker.AllOf(flushes)
            && journal.Contents() == old(journal.Contents()) + Journals.RecordsOf(life.journal)
            && (r.Success? <==> Readable(old(store.file), life.rewrite) && Reports(rewrite))
            && (Readable(old(store.file), life.rewrite) && ReachedAll(rewrite, Journals.ToFills(journal.Contents())) ==>
                  Read(after) == Ok(Journals.ToFills(journal.Contents())))
  {
    hide PipelineWorker.LifeOf, PipelineWorker.AllOf;
    ghost var room := journal.header.capacity - journal.header.records;
    ghost var start := PipelineWorker.Life(room, [], store.trades, PipelineWorker.Untouched, true);
    ghost var life := PipelineWorker.LifeOf(start, flushes);
    PipelineWorker.LifeKeepsOrder(room, store.trades, flushes);
    if life.rewrite.Rewritten? {
      ReadAfterWrite(store.file, life.rewrite.fills, life.rewrite.write);
    }
    var alive, persisted := PipelineWorker.RunFlushes(journal, store, flushes, 0);
    journal.ReplayIsContents();
    ReadAfterWrite(store.file, Journals.ToFills(journal.Contents()), rewrite);
    r, after := RebuildStoreFromJournal(journal.Mapped(), store.file, rewrite);
  }

  /** One fill is enough: the flush reports success, its record does not reach the store file, and no rebuild goes
      through. */
  method TornFlush(journal: Journals.FillJournal, store: TradeStore, f: Fill, rewrite: Write)
    returns (r: Outcome<nat>, after: File)
    requires journal.Valid() && store.Valid() && journal.header.records < journal.header.capacity
    modifies journal, journal.slots, store
    ensures journal.Valid() && journal.Contents() == old(journal.Contents()) + [Journals.RecordOf(f)]
    ensures r.Failure? && store.trades == old(store.trades) + [f]
  {
    ReadAfterWrite(store.file, store.trades + [f], Wrote(true, Records(0)));
    var ok, persisted := PipelineWorker.FlushBatch(journal, store, [f], 0, true, Wrote(true, Records(0)));
    assert Journals.RecordsOf([f]) == [Journals.RecordOf(f)] && [f][..1] == [f];
    journal.ReplayIsContents();
    r, after := RebuildStoreFromJournal(journal.Mapped(), store.file, rewrite);
  }

  /** Rebuild, then reconcile. When the rebuilt file can be read at all, the reconciliation is good exactly if the
      journal's records are those of the feed's fills and the rebuilt file has a count, or needs none. */
  method RebuildAndReconcile(feed: seq<FeedMessage>, journal: Journals.File, before: File, write: Write,
                             poolCapacity: nat)
    returns (r: Outcome<Report>)
    requires Recovery.PoolSize(poolCapacity, |feed|) < TWO_32
    ensures var records := Journals.Replay(journal);
            && (r.Success? <==>
                  && Recovery.Clean(Recovery.PoolSize(poolCapacity, |feed|), feed, |feed|)
                  && records.Ok? && Read(before).Ok?
                  && (write.Wrote? ==> write.reached.NoCount? || ReachedAll(write, Journals.ToFills(records.value))))
            && (r.Success? && write.Wrote? ==>
                  var fills := Run(EMPTY_BOOK, feed).fills;
                  (r.value.Ok() <==>
                    records.value == Journals.RecordsOf(fills) && (write.reached.NoCount? ==> fills == [])))
  {
    var records := Journals.Replay(journal);
    if records.Ok? {
      ReadAfterWrite(before, Journals.ToFills(records.value), write);
    }
    var rebuilt, after := RebuildStoreFromJournal(journal, before, write);
    r := Reconcile(feed, journal, after, poolCapacity);
    if r.Success? && write.Wrote? && (write.reached.Records? || records.value == []) {
      RebuiltStoreReconciles(r.value, Run(EMPTY_BOOK, feed).fills, records.value);
    }
  }
}
