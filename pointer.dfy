// `Pointer`, the u32 file offset newtype of the repository, with its
// nullable reads and writes, its arithmetic and its checked conversions.
module PointerUtil {
  import opened Wrappers
  import opened Bytes
  import Stream

  datatype Pointer = Pointer(value: u32)

  /** `Pointer::new`: zero is the null pointer. */
  function New(x: u32): (r: Option<Pointer>)
    ensures r.None? <==> x == 0
    ensures r.Some? ==> r.value == Pointer(x)
  {
    if x != 0 then Some(Pointer(x)) else None
  }

  /** `Pointer::current` and the `TryFrom<&Cursor>` impls: a stream position
      as a pointer, failing when it does not fit a u32. */
  function Current(pos: nat): (r: Result<Pointer>)
    ensures r.Ok? <==> pos <= U32_MAX
    ensures r.Ok? ==> r.value.value == pos
    ensures r.Err? ==> r.error == PositionOverflow
  {
    if pos <= U32_MAX then Ok(Pointer(pos)) else Err(PositionOverflow)
  }

  /** Decoding `Pointer::read` at `pos`: a big-endian u32, zero meaning none. */
  function ReadAt(data: Bytes, pos: nat): (r: Result<Option<Pointer>>)
    ensures r.Ok? <==> pos + 4 <= |data|
    ensures r.Ok? ==> (r.value.None? <==> data[pos..pos + 4] == Zeros(4))
    ensures r.Ok? && r.value.Some? ==> U32ToBE(r.value.value.value) == data[pos..pos + 4]
  {
    match Stream.U32At(data, pos)
    case Err(e) => Err(e)
    case Ok(v) =>
      U32ZeroIff(data[pos..pos + 4]);
      assert BEToU32(data[pos..pos + 4]) == v by { U32RoundTrip(v); }
      Ok(New(v))
  }

  /** `Pointer + u64` (through `from_type_unwrap`): both operands are
      converted to i32 with `unwrap`, added as i32 (a debug-build overflow
      panics) and converted back to u32 with `unwrap`. */
  function AddWide(p: Pointer, rhs: int): (r: Result<Pointer>)
    ensures r.Ok? <==> p.value <= I32_MAX && -0x8000_0000 <= rhs <= I32_MAX && 0 <= p.value + rhs <= I32_MAX
    ensures r.Ok? ==> r.value.value == p.value + rhs
    ensures r.Err? ==> r.error == Panic
  {
    if p.value > I32_MAX then Err(Panic)
    else if !(-0x8000_0000 <= rhs <= I32_MAX) then Err(Panic)
    else
      var sum := p.value + rhs;
      if !(-0x8000_0000 <= sum <= I32_MAX) then Err(Panic)
      else if sum < 0 then Err(Panic)
      else Ok(Pointer(sum))
  }

  /** `Pointer - i32/u64/i64/usize`, the same conversions around an i32
      subtraction. */
  function SubWide(p: Pointer, rhs: int): (r: Result<Pointer>)
    ensures r.Ok? <==> p.value <= I32_MAX && -0x8000_0000 <= rhs <= I32_MAX && 0 <= p.value - rhs <= I32_MAX
    ensures r.Ok? ==> r.value.value == p.value - rhs
    ensures r.Err? ==> r.error == Panic
  {
    if p.value > I32_MAX then Err(Panic)
    else if !(-0x8000_0000 <= rhs <= I32_MAX) then Err(Panic)
    else
      var diff := p.value - rhs;
      if !(-0x8000_0000 <= diff <= I32_MAX) then Err(Panic)
      else if diff < 0 then Err(Panic)
      else Ok(Pointer(diff))
  }

  /** `Pointer::from(i32/u64/i64/usize)`: `try_into().unwrap()`. */
  function FromWide(x: int): (r: Result<Pointer>)
    ensures r.Ok? <==> 0 <= x <= U32_MAX
    ensures r.Ok? ==> r.value.value == x
  {
    if 0 <= x <= U32_MAX then Ok(Pointer(x)) else Err(Panic)
  }

  /** `i32::from(Pointer)`: `try_into().unwrap()`. */
  function ToI32(p: Pointer): (r: Result<i32>)
    ensures r.Ok? <==> p.value <= I32_MAX
    ensures r.Ok? ==> r.value == p.value
  {
    if p.value <= I32_MAX then Ok(p.value) else Err(Panic)
  }

  /** `Pointer + Pointer` and `Pointer + u32`: plain u32 addition, which the
      callers never let overflow. */
  function Add(a: Pointer, b: u32): (r: Pointer)
    requires a.value + b <= U32_MAX
    ensures r.value - a.value == b
  {
    Pointer(a.value + b)
  }

  /** `Pointer - Pointer` and `Pointer - u32`. */
  function Sub(a: Pointer, b: u32): (r: Pointer)
    requires b <= a.value
    ensures r.value + b == a.value
  {
    Pointer(a.value - b)
  }

  /** Addition and subtraction undo each other. */
  lemma AddSubInverse(a: Pointer, b: u32)
    requires a.value + b <= U32_MAX
    ensures Sub(Add(a, b), b) == a
  {
  }

  /** `Pointer::write`: the big-endian bytes of the value. */
  function Encode(p: Pointer): (r: Bytes)
    ensures |r| == 4
  {
    U32ToBE(p.value)
  }

  /** `Pointer::write_option`: nothing at all for `None`. */
  function EncodeOption(o: Option<Pointer>): (r: Bytes)
    ensures o.None? <==> r == []
    ensures o.Some? ==> r == Encode(o.value)
  {
    match o
    case None => []
    case Some(p) => Encode(p)
  }

  /** What `write` emits, `read` gives back: the pointer itself, or `None`
      for the zero pointer. */
  lemma {:induction false} ReadOfWrite(p: Pointer, before: Bytes, after: Bytes)
    ensures ReadAt(before + Encode(p) + after, |before|) == Ok(New(p.value))
  {
    var data := before + Encode(p) + after;
    assert data[|before|..|before| + 4] == Encode(p);
    U32RoundTrip(p.value);
  }

  /** `read` reads every 4-byte word as what `write` of its value emits. */
  lemma {:induction false} WriteOfRead(data: Bytes, pos: nat)
    requires pos + 4 <= |data|
    ensures ReadAt(data, pos).Ok?
    ensures ReadAt(data, pos).value.Some? ==> Encode(ReadAt(data, pos).value.value) == data[pos..pos + 4]
    ensures ReadAt(data, pos).value.None? ==> Encode(Pointer(0)) == data[pos..pos + 4]
  {
  }

  /** `Pointer::read_relative` decoded at `pos`: a non-zero word plus the
      position of that word. */
  function ReadRelativeAt(data: Bytes, pos: nat): (r: Result<Option<Pointer>>)
    ensures ReadAt(data, pos).Err? ==> r.Err?
    ensures ReadAt(data, pos) == Ok(None) ==> r == Ok(None)
    ensures ReadAt(data, pos).Ok? && ReadAt(data, pos).value.Some? ==>
      var word := ReadAt(data, pos).value.value;
      (r.Ok? <==> AddWide(word, pos).Ok?) && (r.Ok? ==> r.value == Some(Pointer(word.value + pos)))
  {
    var word :- ReadAt(data, pos);
    match word
    case None => Ok(None)
    case Some(p) =>
      var q :- AddWide(p, pos);
      Ok(Some(q))
  }

  method Read(reader: Stream.Cursor) returns (r: Result<Option<Pointer>>)
    modifies reader
    ensures r == ReadAt(reader.data, old(reader.pos))
    ensures r.Ok? ==> reader.pos == old(reader.pos) + 4
  {
    var v := reader.ReadU32();
    match v
    case Err(e) => r := Err(e);
    case Ok(x) => r := ReadAt(reader.data, reader.pos - 4);
  }

  method ReadRelative(reader: Stream.Cursor) returns (r: Result<Option<Pointer>>)
    modifies reader
    ensures r == ReadRelativeAt(reader.data, old(reader.pos))
    ensures r.Ok? ==> reader.pos == old(reader.pos) + 4
  {
    var readerPos := reader.pos;
    var word := Read(reader);
    match word
    case Err(e) => r := Err(e);
    case Ok(None) => r := Ok(None);
    case Ok(Some(p)) =>
      var q := AddWide(p, readerPos);
      match q
      case Err(e) => r := Err(e);
      case Ok(q) => r := Ok(Some(q));
  }

  method Write(p: Pointer, writer: Stream.ByteWriter)
    modifies writer
    ensures writer.buf == Stream.Overwrite(old(writer.buf), old(writer.pos), Encode(p))
    ensures writer.pos == old(writer.pos) + 4
  {
    writer.WriteU32(p.value);
  }

  method WriteOption(o: Option<Pointer>, writer: Stream.ByteWriter)
    modifies writer
    ensures writer.buf == Stream.Overwrite(old(writer.buf), old(writer.pos), EncodeOption(o))
    ensures writer.pos == old(writer.pos) + |EncodeOption(o)|
  {
    match o
    case None =>
      writer.Write([]);
    case Some(p) =>
      Write(p, writer);
  }
}
