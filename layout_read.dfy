// The table readers as the program runs them: one `Cursor` moving through
// the content section, fields read in declaration order, and the reader
// position saved and restored (`scoped_reader_pos!`) around every read
// that follows a pointer.  Each method reads what `Layouts.ReadValue` says.
module LayoutRead {
  import opened Wrappers
  import opened Bytes
  import opened PointerUtil
  import opened ElfRead
  import opened Layouts
  import Stream
  import Util

  /** One 4-byte field, by the domain reader of its type. */
  method ReadField(d: ElfReadDomain, reader: Stream.Cursor, kind: FieldKind) returns (r: Result<Value>)
    modifies reader
    ensures r == FieldAt(d, reader.data, old(reader.pos), kind)
    ensures r.Ok? ==> reader.pos == old(reader.pos) + 4
  {
    match kind
    case WordKind =>
      var w := reader.ReadU32();
      r := if w.Ok? then Ok(Word(w.value)) else Err(w.error);
    case StringKind =>
      var s := ReadString(d, reader);
      r := if s.Ok? then Ok(Text(s.value)) else Err(s.error);
    case OptStringKind =>
      var s := ReadStringOptional(d, reader);
      r := if s.Ok? then Ok(OptText(s.value)) else Err(s.error);
    case PointerKind =>
      var p := ReadPointer(d, reader);
      r := if p.Ok? then Ok(Ptr(p.value)) else Err(p.error);
  }

  /** `from_reader` of a value of shape `s`: what `ReadValue` gives, and the
      reader just past the value. */
  method ReadShape(d: ElfReadDomain, reader: Stream.Cursor, s: Shape) returns (r: Result<Value>)
    requires Sized(s)
    modifies reader
    ensures r == ReadValue(d, reader.data, old(reader.pos), s)
    ensures r.Ok? ==> reader.pos == old(reader.pos) + Size(s)
    decreases s, 0
  {
    match s
    case Field(kind) => r := ReadField(d, reader, kind);
    case Record(fs) => r := ReadRecord(d, reader, fs);
    case VecField(e) => r := ReadVecField(d, reader, e);
    case Counted(e, nullCounted) => r := ReadCounted(d, reader, e, nullCounted);
    case UntilDefault(e) => r := ReadUntilDefault(d, reader, e);
    case Boxed(i) => r := ReadBoxed(d, reader, i);
  }

  /** The fields of a derived `Readable` struct, one after the other. */
  method ReadRecord(d: ElfReadDomain, reader: Stream.Cursor, fs: seq<Shape>) returns (r: Result<Value>)
    requires Sized(Record(fs))
    modifies reader
    ensures r == RecordAt(d, reader.data, old(reader.pos), fs)
    ensures r.Ok? ==> reader.pos == old(reader.pos) + FieldsSize(fs)
    decreases fs, 2
  {
    var start := reader.pos;
    ghost var read := FieldReads(d, reader.data, start, fs);
    var vs: seq<Value> := [];
    var k := 0;
    while k < |fs|
      invariant k <= |fs|
      invariant reader.pos == start + FieldOffset(fs, k)
      invariant Stream.ReadEach(read, k) == Ok(vs)
    {
      var v := ReadShape(d, reader, fs[k]);
      assert read(k) == FieldValue(d, reader.data, start, fs, k) == v;
      if v.Err? {
        Stream.ReadEachStop(read, k, |fs|);
        return Err(v.error);
      }
      Stream.ReadEachNext(read, k, vs, v.value);
      FieldOffsetNext(fs, k);
      vs := vs + [v.value];
      k := k + 1;
    }
    assert fs[..|fs|] == fs;
    r := Ok(Fields(vs));
  }

  /** `count` records of shape `e` one after the other from the reader's
      position: the `(0..count).map(...).collect()` of the list readers. */
  method ReadItems(d: ElfReadDomain, reader: Stream.Cursor, e: Shape, count: nat) returns (r: Result<seq<Value>>)
    requires Sized(e)
    modifies reader
    ensures r == Stream.ReadEach(Stream.Strided(ElemAt(d, reader.data, e), old(reader.pos), Size(e)), count)
    decreases e, 2
  {
    var start := reader.pos;
    ghost var read := Stream.Strided(ElemAt(d, reader.data, e), start, Size(e));
    var items: seq<Value> := [];
    var k := 0;
    while k < count
      invariant k <= count
      invariant reader.pos == Stream.RecordPos(start, Size(e), k)
      invariant Stream.ReadEach(read, k) == Ok(items)
    {
      var v := ReadShape(d, reader, e);
      assert read(k) == v;
      if v.Err? {
        Stream.ReadEachStop(read, k, count);
        return Err(v.error);
      }
      Stream.ReadEachNext(read, k, items, v.value);
      items := items + [v.value];
      k := k + 1;
    }
    r := Ok(items);
  }

  /** `read_vec`: nothing for a null pointer or a zero count, otherwise the
      records at the pointer, with the reader back after the count. */
  method ReadVecField(d: ElfReadDomain, reader: Stream.Cursor, e: Shape) returns (r: Result<Value>)
    requires Sized(e)
    modifies reader
    ensures r == VecValueAt(d, reader.data, old(reader.pos), e)
    ensures r.Ok? ==> reader.pos == old(reader.pos) + 8
    decreases e, 3
  {
    var p := ReadPointerOptional(d, reader);
    if p.Err? {
      return Err(p.error);
    }
    var count := reader.ReadU32();
    if count.Err? {
      return Err(count.error);
    }
    if p.value.None? || count.value == 0 {
      return Ok(List([]));
    }
    var guard := new Util.ReaderGuard(reader);
    reader.Seek(p.value.value.value);
    var items := ReadItems(d, reader, e, count.value);
    guard.Drop();
    r := if items.Ok? then Ok(List(items.value)) else Err(items.error);
  }

  /** `MaplinkArea::links` and `read_dispos_item_vec`: a non-null pointer,
      a u32 count, and the records at the pointer. */
  method ReadCounted(d: ElfReadDomain, reader: Stream.Cursor, e: Shape, nullCounted: bool) returns (r: Result<Value>)
    requires Sized(e)
    modifies reader
    ensures r == CountedAt(d, reader.data, old(reader.pos), e, nullCounted)
    ensures r.Ok? ==> reader.pos == old(reader.pos) + 8
    decreases e, 3
  {
    var p := ReadPointer(d, reader);
    if p.Err? {
      return Err(p.error);
    }
    var count := reader.ReadU32();
    if count.Err? {
      return Err(count.error);
    }
    if nullCounted && count.value == 0 {
      return Err(Panic);
    }
    var guard := new Util.ReaderGuard(reader);
    reader.Seek(p.value.value);
    var items := ReadItems(d, reader, e, CountedLength(count.value, nullCounted));
    guard.Drop();
    r := if items.Ok? then Ok(List(items.value)) else Err(items.error);
  }

  /** `Shop::items`: records at a non-null pointer up to the first that
      equals the default. */
  method ReadUntilDefault(d: ElfReadDomain, reader: Stream.Cursor, e: Shape) returns (r: Result<Value>)
    requires Sized(e)
    modifies reader
    ensures r == UntilDefaultValueAt(d, reader.data, old(reader.pos), e)
    ensures r.Ok? ==> reader.pos == old(reader.pos) + 4
    decreases e, 3
  {
    var p := ReadPointer(d, reader);
    if p.Err? {
      return Err(p.error);
    }
    var guard := new Util.ReaderGuard(reader);
    reader.Seek(p.value.value);
    ElemWithin(d, reader.data, e);
    var items := ReadUntilDefaultItems(d, reader, e);
    assert items == UntilDefaultAt(d, reader.data, p.value.value, e);
    guard.Drop();
    r := if items.Ok? then Ok(List(items.value)) else Err(items.error);
  }

  /** The `loop` of `Shop::from_reader_unboxed`. */
  method ReadUntilDefaultItems(d: ElfReadDomain, reader: Stream.Cursor, e: Shape) returns (r: Result<seq<Value>>)
    requires Sized(e) && Stream.ReadsWithin(ElemAt(d, reader.data, e), Size(e), |reader.data|)
    modifies reader
    ensures r == Stream.ReadUntil(ElemAt(d, reader.data, e), DefaultOf(e), Size(e), |reader.data|, old(reader.pos))
    decreases e, 2
  {
    var start := reader.pos;
    ghost var read := ElemAt(d, reader.data, e);
    ghost var limit := |reader.data|;
    var stop := DefaultOf(e);
    var items: seq<Value> := [];
    while true
      invariant Stream.ReadUntil(read, stop, Size(e), limit, start)
        == Stream.Prepend(items, Stream.ReadUntil(read, stop, Size(e), limit, reader.pos))
      decreases if reader.pos <= limit then limit - reader.pos else 0
    {
      var pos := reader.pos;
      var v := ReadShape(d, reader, e);
      assert read(pos) == v;
      if v.Err? {
        return Err(v.error);
      }
      if v.value == stop {
        Stream.ReadUntilDone(read, stop, Size(e), limit, start, pos, items);
        return Ok(items);
      }
      Stream.ReadUntilNext(read, stop, Size(e), limit, start, pos, items, v.value, reader.pos);
      items := items + [v.value];
    }
  }

  /** A `#[boxed]` record, or the hand-written pointer records: the record
      at a non-null pointer, with the reader back after the pointer. */
  method ReadBoxed(d: ElfReadDomain, reader: Stream.Cursor, i: Shape) returns (r: Result<Value>)
    requires Sized(i)
    modifies reader
    ensures r == BoxedAt(d, reader.data, old(reader.pos), i)
    ensures r.Ok? ==> reader.pos == old(reader.pos) + 4
    decreases i, 3
  {
    var p := ReadPointer(d, reader);
    if p.Err? {
      return Err(p.error);
    }
    var guard := new Util.ReaderGuard(reader);
    reader.Seek(p.value.value);
    r := ReadShape(d, reader, i);
    guard.Drop();
  }
}
