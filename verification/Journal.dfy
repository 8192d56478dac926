/** The write-ahead fill journal: a header and an array of records (include/journal/FillJournal.h). */
module Journals {
  import opened Protocol

  const MAGIC: u64 := 0x324a46424f4e4843

  datatype FillRecord = FillRecord(
    buyOrderId: u64, sellOrderId: u64, price: u32, qty: u32, timestamp: u64, symbolPacked: u64)

  function RecordOf(f: Fill): FillRecord {
    FillRecord(f.buyOrderId, f.sellOrderId, f.price, f.qty, f.timestamp, f.symbolPacked)
  }

  function ToFill(r: FillRecord): Fill {
    Fill(r.buyOrderId, r.sellOrderId, r.price, r.qty, r.timestamp, r.symbolPacked)
  }

  function RecordsOf(fills: seq<Fill>): seq<FillRecord> {
    seq(|fills|, i requires 0 <= i < |fills| => RecordOf(fills[i]))
  }

  function ToFills(records: seq<FillRecord>): seq<Fill> {
    seq(|records|, i requires 0 <= i < |records| => ToFill(records[i]))
  }

  /** Nothing of a fill is lost in its record. */
  lemma RecordsRoundTrip(fills: seq<Fill>, records: seq<FillRecord>)
    ensures ToFills(RecordsOf(fills)) == fills && RecordsOf(ToFills(records)) == records
  {
  }

  datatype Header = Header(magic: u64, records: u64, capacity: u64)

  /** A file: empty, shorter than a header (here with zeros in place of the missing bytes), or a header and record
      slots. */
  datatype File = Blank | Short(header: Header) | Image(header: Header, slots: seq<FillRecord>)

  datatype Error = CapacityZero | BadMagic | CapacityMismatch | BadRecordCount | NoHeader | TruncatedRecords
  datatype Result<T> = Ok(value: T) | Err(error: Error)

  /** The records of a journal file. */
  function Replay(file: File): Result<seq<FillRecord>> {
    if !file.Image? then Err(NoHeader)
    else if file.header.magic != MAGIC then Err(BadMagic)
    else if file.header.records > file.header.capacity then Err(BadRecordCount)
    else if |file.slots| < file.header.records then Err(TruncatedRecords)
    else Ok(file.slots[..file.header.records])
  }

  /** What is wrong with the header of an existing file opened for `capacity` records. */
  function HeaderErrors(h: Header, capacity: u64): set<Error> {
    (if h.magic != MAGIC then {BadMagic} else {}) + (if h.capacity != capacity then {CapacityMismatch} else {}) +
    (if h.records > h.capacity then {BadRecordCount} else {})
  }

  const ZERO_RECORD: FillRecord := FillRecord(0, 0, 0, 0, 0, 0)

  /** Slot `i` once the file has been extended to its full size. */
  function SlotOf(file: File, i: nat): FillRecord {
    if file.Image? && i < |file.slots| then file.slots[i] else ZERO_RECORD
  }

  class FillJournal {
    var header: Header
    const slots: array<FillRecord>

    ghost predicate Valid()
      reads this
    {
      header.magic == MAGIC && slots.Length == header.capacity > 0 && header.records <= header.capacity
    }

    /** The records appended so far. */
    ghost function Contents(): seq<FillRecord>
      requires Valid()
      reads this, slots
    {
      slots[..header.records]
    }

    /** The mapped file. */
    function Mapped(): File
      reads this, slots
    {
      Image(header, slots[..])
    }

    constructor (header: Header, file: File)
      ensures this.header == header && slots.Length == header.capacity && fresh(slots)
      ensures forall i: nat | i < header.capacity :: slots[i] == SlotOf(file, i)
    {
      this.header := header;
      slots := new FillRecord[header.capacity](i requires 0 <= i < header.capacity => SlotOf(file, i));
    }

    /** A new journal is empty; an existing file is taken over exactly if its header fits. */
    static method Open(file: File, capacity: u64) returns (r: Result<FillJournal>)
      ensures r.Ok? <==> capacity != 0 && (file.Blank? || HeaderErrors(file.header, capacity) == {})
      ensures r.Err? ==>
                if capacity == 0 then r.error == CapacityZero
                else file != Blank && r.error in HeaderErrors(file.header, capacity)
      ensures r.Ok? ==> fresh(r.value) && r.value.Valid()
      ensures r.Ok? ==> r.value.header == if file.Blank? then Header(MAGIC, 0, capacity) else file.header
      ensures r.Ok? ==> r.value.Contents() ==
                        seq(if file.Blank? then 0 else file.header.records, i requires i >= 0 => SlotOf(file, i))
      ensures r.Ok? && file.Blank? ==> r.value.Contents() == []
      ensures r.Ok? && Replay(file).Ok? ==> r.value.Contents() == Replay(file).value
      ensures Replay(file).Ok? && capacity == file.header.capacity != 0 ==> r.Ok?
      ensures r.Ok? && file.Image? && file.header.records <= |file.slots| ==> Replay(file).Ok?
    {
      if capacity == 0 {
        return Err(CapacityZero);
      }
      var header := Header(MAGIC, 0, capacity);
      if file != Blank {
        header := file.header;
        if header.magic != MAGIC {
          return Err(BadMagic);
        } else if header.capacity != capacity {
          return Err(CapacityMismatch);
        } else if header.records > header.capacity {
          return Err(BadRecordCount);
        }
      }
      var journal := new FillJournal(header, file);
      return Ok(journal);
    }

    /** Refused, changing nothing, exactly when the journal is full. */
    method Append(fill: Fill) returns (ok: bool)
      requires Valid()
      modifies this`header, slots
      ensures Valid() && header.capacity == old(header.capacity) && ok == (old(header.records) < header.capacity)
      ensures Contents() == if ok then old(Contents()) + [RecordOf(fill)] else old(Contents())
    {
      var idx := header.records;
      if idx >= header.capacity {
        return false;
      }
      slots[idx] := RecordOf(fill);
      header := header.(records := idx + 1);
      return true;
    }

    /** Appends one by one: a full journal keeps the part of the batch that fitted. */
    method AppendBatch(fills: seq<Fill>, synced: bool) returns (ok: bool)
      requires Valid()
      modifies this`header, slots
      ensures Valid() && header.capacity == old(header.capacity)
      ensures var room := header.capacity - old(header.records);
              var n := if |fills| <= room then |fills| else room;
              Contents() == old(Contents()) + RecordsOf(fills[..n]) && ok == (n == |fills| && synced)
    {
      for i := 0 to |fills|
        invariant Valid() && header.capacity == old(header.capacity) && header.records == old(header.records) + i
        invariant Contents() == old(Contents()) + RecordsOf(fills[..i])
      {
        var fitted := Append(fills[i]);
        if !fitted {
          return false;
        }
        assert RecordsOf(fills[..i + 1]) == RecordsOf(fills[..i]) + [RecordOf(fills[i])];
      }
      assert fills[..|fills|] == fills;
      return synced;
    }

    /** A journal that is closed and opened again has kept every record. */
    method Reopen() returns (r: FillJournal)
      requires Valid()
      ensures fresh(r) && r.Valid() && r.header == header && r.Contents() == Contents()
    {
      ReplayIsContents();
      var again := Open(Mapped(), header.capacity);
      return again.value;
    }

    /** Replaying the mapped file gives the journal's contents. */
    lemma ReplayIsContents()
      requires Valid()
      ensures Replay(Mapped()) == Ok(Contents())
    {
    }
  }
}
