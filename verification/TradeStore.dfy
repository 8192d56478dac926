/** The flat-file trade store: all trades in insertion order, and an index of positions per symbol
    (include/store/TradeStore.h). */
module TradeStores {
  import opened Protocol

  // --- Scanning --------------------------------------------------------------------------------

  datatype Scope = Any | Only(symbol: u64)

  predicate Chosen(f: Fill, scope: Scope, beginTs: u64, endTs: u64) {
    (scope == Any || scope == Only(f.symbolPacked)) && beginTs <= f.timestamp <= endTs
  }

  /** The trades in scope and in the time range, in order. */
  function Select(trades: seq<Fill>, scope: Scope, beginTs: u64, endTs: u64): seq<Fill> {
    if trades == [] then []
    else
      var init, f := Select(trades[..|trades| - 1], scope, beginTs, endTs), trades[|trades| - 1];
      if Chosen(f, scope, beginTs, endTs) then init + [f] else init
  }

  /** `at` lists, in ascending order and once each, the positions of the trades of this symbol, or of all symbols, whose
      timestamps are not before `beginTs` and not after `endTs`. */
  ghost predicate Qualify(trades: seq<Fill>, scope: Scope, beginTs: u64, endTs: u64, at: seq<nat>) {
    && (forall j, k | 0 <= j < k < |at| :: at[j] < at[k])
    && (forall k | 0 <= k < |at| :: at[k] < |trades|)
    && (forall i | 0 <= i < |trades| ::
          i in at <==> (scope.Any? || trades[i].symbolPacked == scope.symbol)
                       && beginTs <= trades[i].timestamp && trades[i].timestamp <= endTs)
  }

  ghost predicate FoundAt(trades: seq<Fill>, at: seq<nat>, out: seq<Fill>) {
    |out| == |at| && forall k | 0 <= k < |at| :: at[k] < |trades| && out[k] == trades[at[k]]
  }

  /** The selection is the trades at exactly the qualifying positions. */
  lemma {:induction false} SelectIsExact(trades: seq<Fill>, scope: Scope, beginTs: u64, endTs: u64)
    returns (at: seq<nat>)
    ensures Qualify(trades, scope, beginTs, endTs, at)
    ensures FoundAt(trades, at, Select(trades, scope, beginTs, endTs))
  {
    if trades == [] {
      at := [];
    } else {
      hide Qualify, FoundAt, Select, Chosen;
      var n := |trades| - 1;
      var before := SelectIsExact(trades[..n], scope, beginTs, endTs);
      QualifyOneMore(trades, scope, beginTs, endTs, before);
      FoundOneMore(trades, before, Select(trades[..n], scope, beginTs, endTs));
      SelectLast(trades, scope, beginTs, endTs);
      at := if Chosen(trades[n], scope, beginTs, endTs) then before + [n] else before;
    }
  }

  lemma SelectLast(trades: seq<Fill>, scope: Scope, beginTs: u64, endTs: u64)
    requires trades != []
    ensures var init, f := Select(trades[..|trades| - 1], scope, beginTs, endTs), trades[|trades| - 1];
            Select(trades, scope, beginTs, endTs) == if Chosen(f, scope, beginTs, endTs) then init + [f] else init
  {
  }

  lemma FoundOneMore(trades: seq<Fill>, at: seq<nat>, out: seq<Fill>)
    requires trades != [] && FoundAt(trades[..|trades| - 1], at, out)
    ensures FoundAt(trades, at, out) && FoundAt(trades, at + [|trades| - 1], out + [trades[|trades| - 1]])
  {
  }

  lemma QualifyOneMore(trades: seq<Fill>, scope: Scope, beginTs: u64, endTs: u64, at: seq<nat>)
    requires trades != [] && Qualify(trades[..|trades| - 1], scope, beginTs, endTs, at)
    ensures var n := |trades| - 1;
            Qualify(trades, scope, beginTs, endTs, if Chosen(trades[n], scope, beginTs, endTs) then at + [n] else at)
    ensures forall k | 0 <= k < |at| :: at[k] < |trades| - 1
  {
    var init := trades[..|trades| - 1];
    assert forall i | 0 <= i < |init| :: init[i] == trades[i];
  }

  /** A trade is selected exactly if it is one of the trades, of the symbol, and within both bounds. */
  lemma {:induction false} SelectMembers(trades: seq<Fill>, scope: Scope, beginTs: u64, endTs: u64)
    ensures forall f :: f in Select(trades, scope, beginTs, endTs) <==>
              f in trades && (scope.Any? || f.symbolPacked == scope.symbol) && beginTs <= f.timestamp <= endTs
  {
    if trades != [] {
      var n := |trades| - 1;
      SelectMembers(trades[..n], scope, beginTs, endTs);
      assert trades == trades[..n] + [trades[n]];
    }
  }

  function Value(f: Fill): nat {
    f.price * f.qty
  }

  function Notional(trades: seq<Fill>): nat {
    if trades == [] then 0 else Notional(trades[..|trades| - 1]) + Value(trades[|trades| - 1])
  }

  function Quantity(trades: seq<Fill>): nat {
    if trades == [] then 0 else Quantity(trades[..|trades| - 1]) + trades[|trades| - 1].qty
  }

  /** The average price in exact arithmetic; the quantity is a 64-bit counter. */
  function Average(notional: nat, qty: u64): real {
    if qty == 0 then 0.0 else notional as real / qty as real
  }

  /** What a 64-bit counter shows of `n`. */
  function Wrapped(n: nat): u64 {
    n % TWO_64
  }

  function Vwap(trades: seq<Fill>): real {
    Average(Notional(trades), Wrapped(Quantity(trades)))
  }

  lemma {:induction false} NotionalBounds(trades: seq<Fill>, low: u32, high: u32)
    requires forall i | 0 <= i < |trades| :: low <= trades[i].price <= high
    ensures low * Quantity(trades) <= Notional(trades) <= high * Quantity(trades)
  {
    if trades != [] {
      var init, f := trades[..|trades| - 1], trades[|trades| - 1];
      NotionalBounds(init, low, high);
      ProductBounds(low, f.price, high, f.qty);
      Distribute(low, Quantity(init), f.qty);
      Distribute(high, Quantity(init), f.qty);
    }
  }

  lemma ProductBounds(low: nat, price: nat, high: nat, qty: nat)
    requires low <= price <= high
    ensures low * qty <= price * qty <= high * qty
  {
  }

  lemma Distribute(a: nat, b: nat, c: nat)
    ensures a * (b + c) == a * b + a * c
  {
  }

  /** An average price lies between the lowest and the highest price, as long as the quantity has not wrapped around. */
  lemma VwapWithinPrices(trades: seq<Fill>, low: u32, high: u32)
    requires 0 < Quantity(trades) < TWO_64
    requires forall i | 0 <= i < |trades| :: low <= trades[i].price <= high
    ensures low as real <= Vwap(trades) <= high as real
  {
    hide Notional, Quantity, Wrapped;
    NotionalBounds(trades, low, high);
    NotWrapped(Quantity(trades));
    QuotientBounds(Notional(trades), Quantity(trades), low, high);
  }

  lemma QuotientBounds(n: nat, q: nat, low: nat, high: nat)
    requires q > 0 && low * q <= n <= high * q
    ensures low as real <= n as real / q as real <= high as real
  {
    var x := n as real / q as real;
    QuotientTimes(n as real, q as real);
    ProductAsReal(low, q);
    ProductAsReal(high, q);
    ScaledOrder(low as real, x, q as real);
    ScaledOrder(x, high as real, q as real);
  }

  lemma NotWrapped(n: nat)
    requires n < TWO_64
    ensures Wrapped(n) == n
  {
  }

  lemma QuotientTimes(n: real, q: real)
    requires q > 0.0
    ensures n / q * q == n
  {
  }

  lemma ProductAsReal(a: nat, b: nat)
    ensures (a * b) as real == a as real * b as real
  {
  }

  lemma ScaledOrder(a: real, b: real, c: real)
    requires c > 0.0 && a * c <= b * c
    ensures a <= b
  {
  }

  // --- The index -------------------------------------------------------------------------------

  type Index = map<u64, seq<nat>>

  /** The ascending positions of a symbol's trades. */
  function Positions(trades: seq<Fill>, symbol: u64): seq<nat> {
    if trades == [] then []
    else
      var n := |trades| - 1;
      Positions(trades[..n], symbol) + if trades[n].symbolPacked == symbol then [n] else []
  }

  function Listed(index: Index, symbol: u64): seq<nat> {
    if symbol in index then index[symbol] else []
  }

  /** Every symbol's list is exactly the positions of its trades, and no list is empty. */
  ghost predicate IndexExact(trades: seq<Fill>, index: Index) {
    && (forall s: u64 :: Listed(index, s) == Positions(trades, s))
    && (forall s | s in index :: index[s] != [])
  }

  /** An exact index is determined by the trades: indexing step by step and rebuilding agree. */
  lemma IndexUnique(trades: seq<Fill>, a: Index, b: Index)
    requires IndexExact(trades, a) && IndexExact(trades, b)
    ensures a == b
  {
    forall s: u64 ensures s in a <==> s in b {
      assert Listed(a, s) == Listed(b, s);
    }
    forall s: u64 | s in a ensures a[s] == b[s] {
      assert Listed(a, s) == Listed(b, s);
    }
  }

  lemma IndexStep(trades: seq<Fill>, n: nat, index: Index)
    requires n < |trades| && IndexExact(trades[..n], index)
    ensures var s := trades[n].symbolPacked;
            IndexExact(trades[..n + 1], index[s := Listed(index, s) + [n]])
  {
    var s := trades[n].symbolPacked;
    var next := index[s := Listed(index, s) + [n]];
    assert trades[..n + 1][..n] == trades[..n];
    forall x: u64 ensures Listed(next, x) == Positions(trades[..n + 1], x) {
      assert Listed(index, x) == Positions(trades[..n], x);
    }
  }

  method IndexRange(trades: seq<Fill>, bySymbol: Index, begin: nat, end: nat) returns (r: Index)
    requires begin <= end <= |trades| && IndexExact(trades[..begin], bySymbol)
    ensures IndexExact(trades[..end], r)
  {
    r := bySymbol;
    for i := begin to end
      invariant IndexExact(trades[..i], r)
    {
      IndexStep(trades, i, r);
      r := r[trades[i].symbolPacked := Listed(r, trades[i].symbolPacked) + [i]];
    }
  }

  predicate InRange(at: seq<nat>, n: nat) {
    forall i | 0 <= i < |at| :: at[i] < n
  }

  lemma {:induction false} PositionsInRange(trades: seq<Fill>, symbol: u64)
    ensures InRange(Positions(trades, symbol), |trades|)
  {
    if trades != [] {
      PositionsInRange(trades[..|trades| - 1], symbol);
    }
  }

  /** The trades at the given positions that lie in the time range. */
  function Gather(trades: seq<Fill>, at: seq<nat>, beginTs: u64, endTs: u64): seq<Fill>
    requires InRange(at, |trades|)
  {
    if at == [] then []
    else
      var init, f := Gather(trades, at[..|at| - 1], beginTs, endTs), trades[at[|at| - 1]];
      if Chosen(f, Any, beginTs, endTs) then init + [f] else init
  }

  lemma {:induction false} GatherLonger(trades: seq<Fill>, more: seq<Fill>, at: seq<nat>, beginTs: u64, endTs: u64)
    requires InRange(at, |trades|)
    ensures Gather(trades + more, at, beginTs, endTs) == Gather(trades, at, beginTs, endTs)
  {
    if at != [] {
      GatherLonger(trades, more, at[..|at| - 1], beginTs, endTs);
    }
  }

  /** Walking a symbol's list is filtering all trades. */
  lemma {:induction false} GatherIsSelect(trades: seq<Fill>, symbol: u64, beginTs: u64, endTs: u64)
    ensures InRange(Positions(trades, symbol), |trades|)
    ensures Gather(trades, Positions(trades, symbol), beginTs, endTs) == Select(trades, Only(symbol), beginTs, endTs)
  {
    PositionsInRange(trades, symbol);
    if trades != [] {
      var n := |trades| - 1;
      var init := trades[..n];
      PositionsInRange(init, symbol);
      GatherIsSelect(init, symbol, beginTs, endTs);
      GatherLonger(init, [trades[n]], Positions(init, symbol), beginTs, endTs);
      assert init + [trades[n]] == trades;
      var at := Positions(trades, symbol);
      if trades[n].symbolPacked == symbol {
        assert at[..|at| - 1] == Positions(init, symbol);
      } else {
        assert at == Positions(init, symbol);
      }
    }
  }

  lemma {:induction false} SelectAll(trades: seq<Fill>, symbol: u64)
    ensures |Select(trades, Only(symbol), 0, TWO_64 - 1)| == |Positions(trades, symbol)|
  {
    if trades != [] {
      SelectAll(trades[..|trades| - 1], symbol);
    }
  }

  // --- The store -------------------------------------------------------------------------------

  /** The file: absent, too short for a count, or a count and the complete records behind it. */
  datatype File = Missing | Headless | Stored(count: nat, records: seq<Fill>)

  /** What a rewrite gets onto the disk: not even the count, or the count and the first `n` records. */
  datatype Reached = NoCount | Records(n: nat)

  /** How a rewrite goes. It truncates in place, so the old contents survive only if the file cannot be opened.
      Success is decided before the stream is flushed and closed, so that what is reported need not be what is
      reached. */
  datatype Write = Unopened | Wrote(reported: bool, reached: Reached)

  function FileAfter(before: File, fills: seq<Fill>, write: Write): File {
    match write
    case Unopened => before
    case Wrote(_, NoCount) => Headless
    case Wrote(_, Records(n)) => Stored(|fills|, if n < |fills| then fills[..n] else fills)
  }

  predicate Reports(write: Write) {
    write.Wrote? && write.reported
  }

  /** A rewrite that reached all of the given records. */
  predicate ReachedAll(write: Write, fills: seq<Fill>) {
    write.Wrote? && write.reached.Records? && write.reached.n >= |fills|
  }

  /** The trades in a file; a file without a count holds none, one with fewer records than it counts cannot be read. */
  function Read(file: File): Result<seq<Fill>> {
    match file
    case Missing => Ok([])
    case Headless => Ok([])
    case Stored(count, records) => if |records| < count then Err else Ok(records[..count])
  }

  /** A rewritten file reads back as what was written exactly if all records were reached; with the count but not all
      records it cannot be read, and without the count it reads as empty. */
  lemma ReadAfterWrite(before: File, fills: seq<Fill>, write: Write)
    ensures var after := Read(FileAfter(before, fills, write));
            match write
            case Unopened => after == Read(before)
            case Wrote(_, NoCount) => after == Ok([])
            case Wrote(_, Records(n)) => if n < |fills| then after == Err else after == Ok(fills)
  {
    assert fills[..|fills|] == fills;
  }

  datatype Result<T> = Ok(value: T) | Err

  class TradeStore {
    var trades: seq<Fill>
    var bySymbol: Index
    var file: File

    ghost predicate Valid()
      reads this
    {
      IndexExact(trades, bySymbol)
    }

    constructor (file: File, trades: seq<Fill>, bySymbol: Index)
      requires IndexExact(trades, bySymbol)
      ensures Valid() && this.file == file && this.trades == trades && this.bySymbol == bySymbol
    {
      this.file, this.trades, this.bySymbol := file, trades, bySymbol;
    }

    /** Open a store: an error exactly if the file holds fewer records than it counts. */
    static method Load(file: File) returns (r: Result<TradeStore>)
      ensures r.Err? <==> file.Stored? && |file.records| < file.count
      ensures r.Ok? ==> fresh(r.value) && r.value.Valid() && r.value.file == file
      ensures r.Ok? ==> Read(file) == Ok(r.value.trades)
    {
      var loaded := [];
      if file.Stored? {
        if |file.records| < file.count {
          return Err;
        }
        loaded := file.records[..file.count];
      }
      assert loaded[..0] == [] && loaded[..|loaded|] == loaded;
      var index := IndexRange(loaded, map[], 0, |loaded|);
      var store := new TradeStore(file, loaded, index);
      return Ok(store);
    }

    method WriteAll(fills: seq<Fill>, write: Write) returns (ok: bool)
      modifies this`file
      ensures ok == Reports(write) && file == FileAfter(old(file), fills, write)
    {
      ok := Reports(write);
      file := FileAfter(file, fills, write);
    }

    /** All or nothing on the trades in memory. */
    method InsertBatch(fills: seq<Fill>, failBeforeCommit: bool, write: Write) returns (ok: bool)
      requires Valid()
      modifies this
      ensures Valid() && ok == (!failBeforeCommit && Reports(write))
      ensures trades == if ok then old(trades) + fills else old(trades)
      ensures file == if failBeforeCommit then old(file) else FileAfter(old(file), old(trades) + fills, write)
    {
      var staged := trades + fills;
      assert staged[..|trades|] == trades && staged[..|staged|] == staged;
      var stagedBySymbol := IndexRange(staged, bySymbol, |trades|, |staged|);
      if failBeforeCommit {
        return false;
      }
      ok := WriteAll(staged, write);
      if ok {
        trades, bySymbol := staged, stagedBySymbol;
      }
    }

    method ReplaceAll(fills: seq<Fill>, write: Write) returns (ok: bool)
      requires Valid()
      modifies this
      ensures Valid() && ok == Reports(write)
      ensures trades == if ok then fills else old(trades)
      ensures file == FileAfter(old(file), fills, write)
    {
      ok := WriteAll(fills, write);
      if ok {
        trades := fills;
        assert trades[..0] == [] && trades[..|trades|] == trades;
        bySymbol := IndexRange(trades, map[], 0, |trades|);
      }
    }

    method TradeCount(symbol: u64) returns (n: nat)
      requires Valid()
      ensures n == |Select(trades, Only(symbol), 0, TWO_64 - 1)|
    {
      SelectAll(trades, symbol);
      assert Listed(bySymbol, symbol) == Positions(trades, symbol);
      n := if symbol in bySymbol then |bySymbol[symbol]| else 0;
    }

    /** Over all trades in the range. */
    method VwapBetween(beginTs: u64, endTs: u64) returns (r: real)
      ensures r == Vwap(Select(trades, Any, beginTs, endTs))
    {
      hide Notional, Quantity, Value, Wrapped, Select, Gather, Average;
      NoTrades();
      NoneChosen(trades, beginTs, endTs);
      var notional, qty := 0, 0;
      ghost var got: seq<Fill> := [];
      for i := 0 to |trades|
        invariant got == Select(trades[..i], Any, beginTs, endTs)
        invariant notional == Notional(got) && qty == Wrapped(Quantity(got))
      {
        var f := trades[i];
        SelectStep(trades, i, Any, beginTs, endTs);
        if f.timestamp < beginTs || f.timestamp > endTs {
          continue;
        }
        TakeOne(got, f);
        got := got + [f];
        notional, qty := notional + Value(f), Wrapped(qty + f.qty);
      }
      assert trades[..|trades|] == trades;
      r := Average(notional, qty);
    }

    /** A symbol's trades in the range, in order. */
    method Timeline(symbol: u64, beginTs: u64, endTs: u64) returns (out: seq<Fill>)
      requires Valid()
      ensures out == Select(trades, Only(symbol), beginTs, endTs)
      ensures forall f :: f in out <==> f in trades && f.symbolPacked == symbol && beginTs <= f.timestamp <= endTs
    {
      SelectMembers(trades, Only(symbol), beginTs, endTs);
      hide Select;
      GatherIsSelect(trades, symbol, beginTs, endTs);
      assert Listed(bySymbol, symbol) == Positions(trades, symbol);
      out := [];
      if symbol !in bySymbol {
        return;
      }
      var at := bySymbol[symbol];
      for i := 0 to |at|
        invariant out == Gather(trades, at[..i], beginTs, endTs)
      {
        var f := trades[at[i]];
        GatherStep(trades, at, i, beginTs, endTs);
        if f.timestamp < beginTs || f.timestamp > endTs {
          continue;
        }
        out := out + [f];
      }
      assert at[..|at|] == at;
    }

    method AverageAt(at: seq<nat>, beginTs: u64, endTs: u64) returns (r: real)
      requires InRange(at, |trades|)
      ensures r == Vwap(Gather(trades, at, beginTs, endTs))
    {
      hide Notional, Quantity, Value, Wrapped, Gather, Average;
      NoTrades();
      NoneChosen(trades, beginTs, endTs);
      var notional, qty := 0, 0;
      ghost var got: seq<Fill> := [];
      for i := 0 to |at|
        invariant got == Gather(trades, at[..i], beginTs, endTs)
        invariant notional == Notional(got) && qty == Wrapped(Quantity(got))
      {
        var f := trades[at[i]];
        GatherStep(trades, at, i, beginTs, endTs);
        if f.timestamp < beginTs || f.timestamp > endTs {
          continue;
        }
        TakeOne(got, f);
        got := got + [f];
        notional, qty := notional + Value(f), Wrapped(qty + f.qty);
      }
      assert at[..|at|] == at;
      r := Average(notional, qty);
    }

    method VwapOf(symbol: u64, beginTs: u64, endTs: u64) returns (r: real)
      requires Valid()
      ensures r == Vwap(Select(trades, Only(symbol), beginTs, endTs))
    {
      hide Vwap, Select;
      GatherIsSelect(trades, symbol, beginTs, endTs);
      assert Listed(bySymbol, symbol) == Positions(trades, symbol);
      if symbol !in bySymbol {
        NoTrades();
        return 0.0;
      }
      r := AverageAt(bySymbol[symbol], beginTs, endTs);
    }
  }

  lemma NoTrades()
    ensures Vwap([]) == 0.0 && Notional([]) == 0 && Wrapped(Quantity([])) == 0
  {
  }

  lemma NoneChosen(trades: seq<Fill>, beginTs: u64, endTs: u64)
    ensures Select([], Any, beginTs, endTs) == Gather(trades, [], beginTs, endTs) == []
  {
  }

  lemma SelectStep(trades: seq<Fill>, i: nat, scope: Scope, beginTs: u64, endTs: u64)
    requires i < |trades|
    ensures var before := Select(trades[..i], scope, beginTs, endTs);
            Select(trades[..i + 1], scope, beginTs, endTs) ==
            if Chosen(trades[i], scope, beginTs, endTs) then before + [trades[i]] else before
  {
    assert trades[..i + 1][..i] == trades[..i];
  }

  lemma GatherStep(trades: seq<Fill>, at: seq<nat>, i: nat, beginTs: u64, endTs: u64)
    requires i < |at| && InRange(at, |trades|)
    ensures var before := Gather(trades, at[..i], beginTs, endTs);
            Gather(trades, at[..i + 1], beginTs, endTs) ==
            if Chosen(trades[at[i]], Any, beginTs, endTs) then before + [trades[at[i]]] else before
  {
    assert at[..i + 1][..i] == at[..i];
  }

  lemma TakeOne(s: seq<Fill>, f: Fill)
    ensures Notional(s + [f]) == Notional(s) + Value(f)
    ensures Wrapped(Quantity(s + [f])) == Wrapped(Wrapped(Quantity(s)) + f.qty)
  {
    assert (s + [f])[..|s|] == s;
  }
}
