// The top-level tables of the data files: a u32 count stored at one symbol
// and the records stored back to back from another symbol.  The count is
// either exact or holds one trailing null record that is not read
// (`count - 1`, which panics on a zero count).
module Tables {
  import opened Wrappers
  import opened Bytes
  import opened Elf
  import opened ElfRead
  import opened Layouts
  import LayoutRead
  import Stream

  /** `count` records of shape `elem` from `pos` on. */
  function RecordsAt(d: ElfReadDomain, data: Bytes, pos: nat, elem: Shape, count: nat): Result<seq<Value>>
    requires Sized(elem)
  {
    Stream.ReadEach(Stream.Strided(ElemAt(d, data, elem), pos, Size(elem)), count)
  }

  /** Seek to the count symbol, read the count, find the table symbol, seek
      there and read the records one after the other. */
  function TableAt(d: ElfReadDomain, data: Bytes, countName: Bytes, tableName: Bytes, nullCounted: bool, elem: Shape): Result<seq<Value>>
    requires Sized(elem)
  {
    var countSymbol :- FindSymbol(d, countName);
    var count :- Stream.U32At(data, countSymbol.Offset() as nat);
    var tableSymbol :- FindSymbol(d, tableName);
    if nullCounted && count == 0 then Err(Panic)
    else RecordsAt(d, data, tableSymbol.Offset() as nat, elem, CountedLength(count, nullCounted))
  }

  /** The u32 stored at the count symbol. */
  function CountAt(d: ElfReadDomain, data: Bytes, countName: Bytes): Result<u32>
  {
    var countSymbol :- FindSymbol(d, countName);
    Stream.U32At(data, countSymbol.Offset() as nat)
  }

  method ReadTable(d: ElfReadDomain, reader: Stream.Cursor, countName: Bytes, tableName: Bytes, nullCounted: bool, elem: Shape)
    returns (r: Result<seq<Value>>)
    requires Sized(elem)
    modifies reader
    ensures r == TableAt(d, reader.data, countName, tableName, nullCounted, elem)
    ensures r.Ok? ==>
      && CountAt(d, reader.data, countName).Ok? && (nullCounted ==> CountAt(d, reader.data, countName).value > 0)
      && |r.value| == CountedLength(CountAt(d, reader.data, countName).value, nullCounted)
    ensures countName !in d.symbols.Keys() || (CountAt(d, reader.data, countName).Ok? && tableName !in d.symbols.Keys()) ==>
      r == Err(MissingSymbol)
  {
    r := ReadTableSteps(d, reader, countName, tableName, nullCounted, elem);
    TableErrors(d, reader.data, countName, tableName, nullCounted, elem);
    if r.Ok? {
      TableItems(d, reader.data, countName, tableName, nullCounted, elem);
    }
  }

  /** The seeks and reads of a table reader, one by one. */
  method ReadTableSteps(d: ElfReadDomain, reader: Stream.Cursor, countName: Bytes, tableName: Bytes, nullCounted: bool, elem: Shape)
    returns (r: Result<seq<Value>>)
    requires Sized(elem)
    modifies reader
    ensures r == TableAt(d, reader.data, countName, tableName, nullCounted, elem)
  {
    var countSymbol := FindSymbol(d, countName);
    if countSymbol.Err? {
      return Err(countSymbol.error);
    }
    reader.Seek(countSymbol.value.Offset() as nat);
    var count := reader.ReadU32();
    if count.Err? {
      return Err(count.error);
    }
    var tableSymbol := FindSymbol(d, tableName);
    if tableSymbol.Err? {
      return Err(tableSymbol.error);
    }
    reader.Seek(tableSymbol.value.Offset() as nat);
    if nullCounted && count.value == 0 {
      return Err(Panic);
    }
    r := LayoutRead.ReadItems(d, reader, elem, CountedLength(count.value, nullCounted));
  }

  /** A table that reads holds as many records as its count announces,
      record `k` read at `k` strides past the table symbol. */
  lemma TableItems(d: ElfReadDomain, data: Bytes, countName: Bytes, tableName: Bytes, nullCounted: bool, elem: Shape)
    requires Sized(elem) && TableAt(d, data, countName, tableName, nullCounted, elem).Ok?
    ensures FindSymbol(d, countName).Ok? && FindSymbol(d, tableName).Ok?
    ensures var count := Stream.U32At(data, FindSymbol(d, countName).value.Offset() as nat);
      var base := FindSymbol(d, tableName).value.Offset() as nat;
      var items := TableAt(d, data, countName, tableName, nullCounted, elem).value;
      && count.Ok? && (nullCounted ==> count.value > 0)
      && |items| == CountedLength(count.value, nullCounted)
      && forall k :: 0 <= k < |items| ==> ReadValue(d, data, Stream.RecordPos(base, Size(elem), k), elem) == Ok(items[k])
  {
    var count := Stream.U32At(data, FindSymbol(d, countName).value.Offset() as nat).value;
    var base := FindSymbol(d, tableName).value.Offset() as nat;
    var n := CountedLength(count, nullCounted);
    var read := Stream.Strided(ElemAt(d, data, elem), base, Size(elem));
    var items := TableAt(d, data, countName, tableName, nullCounted, elem).value;
    forall k | 0 <= k < n
      ensures ReadValue(d, data, Stream.RecordPos(base, Size(elem), k), elem) == Ok(items[k])
    {
      Stream.ReadEachAt(read, n, k);
    }
  }

  /** A table fails when either of its symbols is missing, and with a
      trailing null record it panics on a zero count. */
  lemma TableErrors(d: ElfReadDomain, data: Bytes, countName: Bytes, tableName: Bytes, nullCounted: bool, elem: Shape)
    requires Sized(elem)
    ensures countName !in d.symbols.Keys() ==> TableAt(d, data, countName, tableName, nullCounted, elem) == Err(MissingSymbol)
    ensures (countName in d.symbols.Keys() && tableName !in d.symbols.Keys()
      && Stream.U32At(data, FindSymbol(d, countName).value.Offset() as nat).Ok?) ==>
        TableAt(d, data, countName, tableName, nullCounted, elem) == Err(MissingSymbol)
    ensures (nullCounted && countName in d.symbols.Keys() && tableName in d.symbols.Keys()
      && Stream.U32At(data, FindSymbol(d, countName).value.Offset() as nat) == Ok(0)) ==>
        TableAt(d, data, countName, tableName, nullCounted, elem) == Err(Panic)
  {
  }

  /** Records that read one after the other from the table symbol, as many
      as the count announces, are what the table reads. */
  lemma TableOf(d: ElfReadDomain, data: Bytes, countName: Bytes, tableName: Bytes, nullCounted: bool, elem: Shape, items: seq<Value>)
    requires Sized(elem) && FindSymbol(d, countName).Ok? && FindSymbol(d, tableName).Ok?
    requires var count := Stream.U32At(data, FindSymbol(d, countName).value.Offset() as nat);
      count.Ok? && (nullCounted ==> count.value > 0) && |items| == CountedLength(count.value, nullCounted)
    requires var base := FindSymbol(d, tableName).value.Offset() as nat;
      forall k :: 0 <= k < |items| ==> ReadValue(d, data, Stream.RecordPos(base, Size(elem), k), elem) == Ok(items[k])
    ensures TableAt(d, data, countName, tableName, nullCounted, elem) == Ok(items)
  {
    var base := FindSymbol(d, tableName).value.Offset() as nat;
    var read := Stream.Strided(ElemAt(d, data, elem), base, Size(elem));
    forall k: nat | k < |items|
      ensures read(k).Ok?
    {
      assert read(k) == ReadValue(d, data, Stream.RecordPos(base, Size(elem), k), elem);
    }
    Stream.ReadEachOk(read, |items|);
    var got := Stream.ReadEach(read, |items|).value;
    forall k | 0 <= k < |items|
      ensures got[k] == items[k]
    {
      Stream.ReadEachAt(read, |items|, k);
      assert read(k) == ReadValue(d, data, Stream.RecordPos(base, Size(elem), k), elem);
    }
    assert got == items;
    assert TableAt(d, data, countName, tableName, nullCounted, elem) == RecordsAt(d, data, base, elem, |items|);
  }
}
