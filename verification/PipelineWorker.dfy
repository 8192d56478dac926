/** The worker's flushes on the journal and the store themselves (include/journal/DurabilityPipeline.h). */
module PipelineWorker {
  import opened Protocol
  import opened Journals
  import opened TradeStores

  /** Journal first, then store: success reaches both, failure never leaves the store with a fill the journal lacks; the
      store file is rewritten exactly if the whole batch was journalled and synced. */
  method FlushBatch(journal: FillJournal, store: TradeStore, batch: seq<Fill>, persisted: nat, synced: bool,
                    write: Write)
    returns (ok: bool, after: nat)
    requires journal.Valid() && store.Valid()
    modifies journal, journal.slots, store
    ensures journal.Valid() && store.Valid() && journal.header.capacity == old(journal.header.capacity)
    ensures var room := old(journal.header.capacity - journal.header.records);
            && (ok <==> |batch| <= room && synced && Reports(write))
            && journal.Contents() ==
               old(journal.Contents()) + RecordsOf(batch[..if |batch| <= room then |batch| else room])
            && store.file ==
               (if |batch| <= room && synced then FileAfter(old(store.file), old(store.trades) + batch, write)
                else old(store.file))
    ensures store.trades == if ok then old(store.trades) + batch else old(store.trades)
    ensures after == if ok then persisted + |batch| else persisted
  {
    var appended := journal.AppendBatch(batch, synced);
    if !appended {
      return false, persisted;
    }
    assert batch[..|batch|] == batch;
    ok := store.InsertBatch(batch, false, write);
    after := if ok then persisted + |batch| else persisted;
  }

  // --- The life of a worker --------------------------------------------------------------------

  /** One flush: the batch, and how syncing the journal and rewriting the store file go. */
  datatype Flush = Flush(batch: seq<Fill>, synced: bool, write: Write)

  function AllOf(flushes: seq<Flush>): seq<Fill> {
    if flushes == [] then [] else AllOf(flushes[..|flushes| - 1]) + flushes[|flushes| - 1].batch
  }

  /** The last rewrite of the store file: what was to be written, and how it went. */
  datatype Rewrite = Untouched | Rewritten(fills: seq<Fill>, write: Write)

  /** A worker that started with `room` left in the journal: what it has journalled, its trades, the last rewrite of the
      store file, and whether it is still running. */
  datatype Life = Life(room: nat, journal: seq<Fill>, trades: seq<Fill>, rewrite: Rewrite, alive: bool)

  function Flushed(a: Life, f: Flush): Life {
    if !a.alive then a
    else if |a.journal| + |f.batch| > a.room then
      var left := if a.room > |a.journal| then a.room - |a.journal| else 0;
      a.(journal := a.journal + f.batch[..left], alive := false)
    else if !f.synced then a.(journal := a.journal + f.batch, alive := false)
    else
      var staged := a.trades + f.batch;
      a.(journal := a.journal + f.batch, trades := if Reports(f.write) then staged else a.trades,
         rewrite := if f.write.Wrote? then Rewritten(staged, f.write) else a.rewrite, alive := Reports(f.write))
  }

  function LifeOf(a: Life, flushes: seq<Flush>): Life {
    if flushes == [] then a else Flushed(LifeOf(a, flushes[..|flushes| - 1]), flushes[|flushes| - 1])
  }

  function FileOf(before: TradeStores.File, r: Rewrite): TradeStores.File {
    match r
    case Untouched => before
    case Rewritten(fills, write) => FileAfter(before, fills, write)
  }

  /** Every rewrite on record has been made. */
  predicate Made(r: Rewrite) {
    r.Rewritten? ==> r.write.Wrote?
  }

  /** A worker journals a prefix of what it is given, all of it while it runs, and stores a prefix of what it
      journals. */
  lemma {:induction false} LifeKeepsOrder(room: nat, trades: seq<Fill>, flushes: seq<Flush>)
    ensures var l := LifeOf(Life(room, [], trades, Untouched, true), flushes);
            && l.room == room && |l.journal| <= room && Made(l.rewrite)
            && l.journal <= AllOf(flushes) && trades <= l.trades <= trades + l.journal
            && (l.alive ==> l.journal == AllOf(flushes) && l.trades == trades + l.journal)
  {
    if flushes == [] {
      assert trades + [] == trades;
    } else {
      var init, f := flushes[..|flushes| - 1], flushes[|flushes| - 1];
      LifeKeepsOrder(room, trades, init);
      FlushKeepsOrder(trades, LifeOf(Life(room, [], trades, Untouched, true), init), AllOf(init), f);
    }
  }

  /** A worker is still running exactly if all its fills have fitted and every sync and rewrite has been reported as
      done. */
  lemma {:induction false} LifeLastsIff(room: nat, trades: seq<Fill>, flushes: seq<Flush>)
    ensures LifeOf(Life(room, [], trades, Untouched, true), flushes).alive <==>
              |AllOf(flushes)| <= room && forall i | 0 <= i < |flushes| ::
                flushes[i].synced && Reports(flushes[i].write)
  {
    if flushes != [] {
      var n := |flushes| - 1;
      var init := flushes[..n];
      LifeKeepsOrder(room, trades, init);
      LifeLastsIff(room, trades, init);
      assert forall i | 0 <= i < n :: init[i] == flushes[i];
      hide LifeOf;
      LifeLast(Life(room, [], trades, Untouched, true), flushes);
    }
  }

  lemma LifeLast(a: Life, flushes: seq<Flush>)
    requires flushes != []
    ensures LifeOf(a, flushes) == Flushed(LifeOf(a, flushes[..|flushes| - 1]), flushes[|flushes| - 1])
  {
  }

  lemma FlushKeepsOrder(trades: seq<Fill>, a: Life, given: seq<Fill>, f: Flush)
    requires |a.journal| <= a.room && Made(a.rewrite)
    requires a.journal <= given && trades <= a.trades <= trades + a.journal
    requires a.alive ==> a.journal == given && a.trades == trades + a.journal
    ensures var l := Flushed(a, f);
            && l.room == a.room && |l.journal| <= a.room && Made(l.rewrite)
            && l.journal <= given + f.batch && trades <= l.trades <= trades + l.journal
            && (l.alive ==> l.journal == given + f.batch && l.trades == trades + l.journal)
  {
    if a.alive {
      var fits := |a.journal| + |f.batch| <= a.room;
      var added := if fits then f.batch else f.batch[..a.room - |a.journal|];
      assert Flushed(a, f).journal == a.journal + added;
      Grown(trades, a.journal, added, f.batch);
    }
  }

  lemma Grown(trades: seq<Fill>, journal: seq<Fill>, added: seq<Fill>, batch: seq<Fill>)
    requires added <= batch
    ensures journal + added <= journal + batch && trades + journal <= trades + (journal + added)
    ensures trades + journal + added == trades + (journal + added)
  {
  }

  /** Journal and store are those of a life that began with these records and this file. */
  ghost predicate Shows(journal: FillJournal, store: TradeStore, records: seq<FillRecord>, file: TradeStores.File,
                        l: Life)
    requires journal.Valid()
    reads journal, journal.slots, store
  {
    && journal.header.capacity == |records| + l.room
    && journal.Contents() == records + RecordsOf(l.journal)
    && store.trades == l.trades && store.file == FileOf(file, l.rewrite) && Made(l.rewrite)
  }

  method FlushOnce(journal: FillJournal, store: TradeStore, f: Flush, persisted: nat,
                   ghost records: seq<FillRecord>, ghost file: TradeStores.File, ghost l: Life)
    returns (alive: bool, after: nat)
    requires journal.Valid() && store.Valid() && Shows(journal, store, records, file, l) && l.alive
    modifies journal, journal.slots, store
    ensures journal.Valid() && store.Valid() && Shows(journal, store, records, file, Flushed(l, f))
    ensures alive == Flushed(l, f).alive && after == persisted + |store.trades| - |old(store.trades)|
  {
    ghost var l' := Flushed(l, f);
    FileAgain(file, l.rewrite, l.trades + f.batch, f.write);
    RecordsAgain(records, l.journal, l'.journal[|l.journal|..]);
    assert |RecordsOf(l.journal)| == |l.journal|;
    alive, after := FlushBatch(journal, store, f.batch, persisted, f.synced, f.write);
    assert l'.journal == l.journal + l'.journal[|l.journal|..];
  }

  /** All flushes in order, up to and including the first that fails. */
  method RunFlushes(journal: FillJournal, store: TradeStore, flushes: seq<Flush>, persisted: nat)
    returns (alive: bool, after: nat)
    requires journal.Valid() && store.Valid()
    modifies journal, journal.slots, store
    ensures journal.Valid() && store.Valid() && journal.header.capacity == old(journal.header.capacity)
    ensures var room := old(journal.header.capacity - journal.header.records);
            var l := LifeOf(Life(room, [], old(store.trades), Untouched, true), flushes);
            && journal.Contents() == old(journal.Contents()) + RecordsOf(l.journal)
            && store.trades == l.trades && store.file == FileOf(old(store.file), l.rewrite) && alive == l.alive
            && after == persisted + |l.trades| - |old(store.trades)|
  {
    ghost var records, file, trades := journal.Contents(), store.file, store.trades;
    ghost var start := Life(journal.header.capacity - journal.header.records, [], trades, Untouched, true);
    assert records + RecordsOf([]) == records;
    hide Flushed, RecordsOf, FileOf, IndexExact;
    ghost var l := start;
    alive, after := true, persisted;
    for i := 0 to |flushes|
      invariant journal.Valid() && store.Valid() && Shows(journal, store, records, file, l)
      invariant l == LifeOf(start, flushes[..i]) && l.room == start.room && alive == l.alive
      invariant after == persisted + |l.trades| - |trades|
    {
      var f := flushes[i];
      LifeStep(start, flushes, i);
      if alive {
        alive, after := FlushOnce(journal, store, f, after, records, file, l);
      }
      l := Flushed(l, f);
    }
    assert flushes[..|flushes|] == flushes;
  }

  lemma LifeStep(a: Life, flushes: seq<Flush>, i: nat)
    requires i < |flushes|
    ensures LifeOf(a, flushes[..i + 1]) == Flushed(LifeOf(a, flushes[..i]), flushes[i])
    ensures var l := LifeOf(a, flushes[..i]);
            Flushed(l, flushes[i]).room == l.room && (!l.alive ==> Flushed(l, flushes[i]) == l)
  {
    assert flushes[..i + 1][..i] == flushes[..i];
  }

  /** A rewrite leaves nothing of the one before. */
  lemma FileAgain(before: TradeStores.File, r: Rewrite, fills: seq<Fill>, write: Write)
    requires Made(r)
    ensures FileAfter(FileOf(before, r), fills, write)
            == FileOf(before, if write.Wrote? then Rewritten(fills, write) else r)
  {
  }

  lemma RecordsAgain(before: seq<FillRecord>, a: seq<Fill>, b: seq<Fill>)
    ensures before + RecordsOf(a + b) == before + RecordsOf(a) + RecordsOf(b)
  {
    assert RecordsOf(a + b) == RecordsOf(a) + RecordsOf(b);
  }
}
