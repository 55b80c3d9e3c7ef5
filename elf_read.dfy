// The read side of the relocation-based pointer encoding (`ElfReadDomain`):
// a pointer field of a `.rodata` section holds a zero word, and the
// relocation keyed at that word's offset names, through `ELF32_R_SYM(info)`,
// the symbol whose `st_value` is the target.  Strings are the NUL-terminated
// runs of `.rodata` at such targets.
module ElfRead {
  import opened Wrappers
  import opened Bytes
  import opened IndexMaps
  import opened PointerUtil
  import opened Elf
  import Stream
  import Util

  /** `ElfReadDomain`: the `.rodata` bytes, its relocation map and the symbol
      map of the file, all borrowed. */
  datatype ElfReadDomain = ElfReadDomain(
    rodata: Bytes,
    relocations: IndexMap<Pointer, Relocation>,
    symbols: IndexMap<Bytes, Symbol>)

  /** `find_symbol`: the symbol of that name. */
  function FindSymbol(d: ElfReadDomain, name: Bytes): (r: Result<Symbol>)
    ensures r.Ok? <==> name in d.symbols.Keys()
    ensures r.Ok? ==> exists i :: 0 <= i < d.symbols.Len() && d.symbols.entries[i] == (name, r.value)
    ensures r.Err? ==> r.error == MissingSymbol
  {
    match d.symbols.Get(name)
    case None => Err(MissingSymbol)
    case Some(s) => Ok(s)
  }

  /** What the relocation keyed at `off` points to, if there is one:
      `st_value` of the symbol at insertion position `info >> 8` of the symbol
      map, or an error when there is no such position. */
  function RelocationTarget(d: ElfReadDomain, off: Pointer): (r: Option<Result<Pointer>>)
    ensures r.None? <==> d.relocations.Get(off).None?
    ensures r.Some? ==>
      var idx := SymbolIndexOf(d.relocations.Get(off).value.info);
      && (r.value.Ok? <==> idx < d.symbols.Len())
      && (r.value.Ok? ==> r.value.value == Pointer(d.symbols.entries[idx].1.header.stValue))
      && (r.value.Err? ==> r.value.error == SymbolIndexOutOfRange)
  {
    match d.relocations.Get(off)
    case None => None
    case Some(rel) =>
      match d.symbols.GetIndex(SymbolIndexOf(rel.info))
      case None => Some(Err(SymbolIndexOutOfRange))
      case Some(entry) => Some(Ok(Pointer(entry.1.Offset())))
  }

  /** `read_pointer_optional` at stream position `pos` of `data`: the word
      there must be zero; the pointer is the relocation target keyed at `pos`,
      and absent when no relocation is keyed there. */
  function PointerOptionalAt(d: ElfReadDomain, data: Bytes, pos: nat): (r: Result<Option<Pointer>>)
    ensures r.Ok? <==>
      && pos <= U32_MAX && pos + 4 <= |data| && data[pos..pos + 4] == Zeros(4)
      && (RelocationTarget(d, Pointer(pos)).Some? ==> RelocationTarget(d, Pointer(pos)).value.Ok?)
    ensures r.Ok? ==> (r.value.None? <==> d.relocations.Get(Pointer(pos)).None?)
    ensures r.Ok? && r.value.Some? ==> RelocationTarget(d, Pointer(pos)) == Some(Ok(r.value.value))
    ensures pos > U32_MAX ==> r == Err(PositionOverflow)
    ensures pos <= U32_MAX && pos + 4 > |data| ==> r == Err(UnexpectedEof)
    ensures pos <= U32_MAX && pos + 4 <= |data| && data[pos..pos + 4] != Zeros(4) ==> r == Err(NonZeroPointerWord)
  {
    var offset :- Current(pos);
    var word :- Stream.U32At(data, pos);
    ZeroWord(data[pos..pos + 4], word);
    if word != 0 then Err(NonZeroPointerWord)
    else
      match RelocationTarget(d, offset)
      case None => Ok(None)
      case Some(t) =>
        var p :- t;
        Ok(Some(p))
  }

  /** A word is zero exactly when its four bytes are. */
  lemma ZeroWord(b: Bytes, x: u32)
    requires |b| == 4 && U32ToBE(x) == b
    ensures x == 0 <==> b == Zeros(4)
  {
    U32RoundTrip(x);
    U32ZeroIff(b);
  }

  /** `read_pointer`: a pointer field that must be relocated. */
  function PointerAt(d: ElfReadDomain, data: Bytes, pos: nat): (r: Result<Pointer>)
    ensures PointerOptionalAt(d, data, pos) == Ok(None) ==> r == Err(NullPointer)
    ensures PointerOptionalAt(d, data, pos).Err? ==> r == Err(PointerOptionalAt(d, data, pos).error)
    ensures r.Ok? <==> PointerOptionalAt(d, data, pos).Ok? && PointerOptionalAt(d, data, pos).value.Some?
    ensures r.Ok? ==> PointerOptionalAt(d, data, pos).value == Some(r.value)
  {
    var _ :- Current(pos);
    var p :- PointerOptionalAt(d, data, pos);
    match p
    case None => Err(NullPointer)
    case Some(q) => Ok(q)
  }

  /** The string `read_string` finds at `target` of `.rodata`: an index past
      the end is the slice panic of `read_string`. */
  function StringIn(d: ElfReadDomain, target: Pointer): (r: Result<Bytes>)
    ensures r.Ok? ==> target.value + |r.value| < |d.rodata|
    ensures r.Ok? ==> d.rodata[target.value..target.value + |r.value|] == r.value
    ensures r.Ok? ==> d.rodata[target.value + |r.value|] == 0
    ensures r.Ok? ==> (forall j :: 0 <= j < |r.value| ==> r.value[j] != 0) && Util.ValidUtf8(r.value)
    ensures target.value > |d.rodata| ==> r == Err(Panic)
    ensures r.Err? && target.value <= |d.rodata| ==> r.error == NoNulTerminator || r.error == InvalidUtf8
  {
    Util.ReadStringChecked(d.rodata, target.value)
  }

  /** `read_string`: a string field that must be relocated. */
  function StringAt(d: ElfReadDomain, data: Bytes, pos: nat): (r: Result<Bytes>)
    ensures PointerOptionalAt(d, data, pos) == Ok(None) ==> r == Err(NullPointer)
    ensures PointerOptionalAt(d, data, pos).Err? ==> r == Err(PointerOptionalAt(d, data, pos).error)
    ensures PointerOptionalAt(d, data, pos).Ok? && PointerOptionalAt(d, data, pos).value.Some? ==>
      r == StringIn(d, PointerOptionalAt(d, data, pos).value.value)
  {
    var _ :- Current(pos);
    var p :- PointerOptionalAt(d, data, pos);
    match p
    case None => Err(NullPointer)
    case Some(q) => StringIn(d, q)
  }

  /** `read_string_optional`: an unrelocated field is no string. */
  function StringOptionalAt(d: ElfReadDomain, data: Bytes, pos: nat): (r: Result<Option<Bytes>>)
    ensures PointerOptionalAt(d, data, pos) == Ok(None) ==> r == Ok(None)
    ensures PointerOptionalAt(d, data, pos).Err? ==> r == Err(PointerOptionalAt(d, data, pos).error)
    ensures PointerOptionalAt(d, data, pos).Ok? && PointerOptionalAt(d, data, pos).value.Some? ==>
      var s := StringIn(d, PointerOptionalAt(d, data, pos).value.value);
      (r.Ok? <==> s.Ok?) && (r.Ok? ==> r.value == Some(s.value)) && (r.Err? ==> r.error == s.error)
  {
    var p :- PointerOptionalAt(d, data, pos);
    match p
    case None => Ok(None)
    case Some(q) =>
      var s :- StringIn(d, q);
      Ok(Some(s))
  }

  /** The nullable and the non-nullable string readers agree wherever the
      field is relocated, and differ exactly on an unrelocated one. */
  lemma StringReadersAgree(d: ElfReadDomain, data: Bytes, pos: nat, s: Bytes)
    ensures StringAt(d, data, pos) == Ok(s) <==> StringOptionalAt(d, data, pos) == Ok(Some(s))
    ensures StringAt(d, data, pos) == Err(NullPointer) <==> StringOptionalAt(d, data, pos) == Ok(None)
  {
  }

  /** The same for the pointer readers. */
  lemma PointerReadersAgree(d: ElfReadDomain, data: Bytes, pos: nat, p: Pointer)
    ensures PointerAt(d, data, pos) == Ok(p) <==> PointerOptionalAt(d, data, pos) == Ok(Some(p))
    ensures PointerAt(d, data, pos) == Err(NullPointer) <==> PointerOptionalAt(d, data, pos) == Ok(None)
  {
  }

  /** The records of a vector once its header is read: none for a null
      pointer or a zero count, otherwise `count` records of `stride` bytes
      each, read by `readAt` from the pointer on. */
  function VecRecords<T>(p: Option<Pointer>, count: u32, readAt: nat -> Result<T>, stride: nat): (r: Result<seq<T>>)
    ensures r.Ok? && (p.None? || count == 0) ==> r.value == []
    ensures r.Ok? && p.Some? ==> |r.value| == count
  {
    match p
    case None => Ok([])
    case Some(q) =>
      if count == 0 then Ok([])
      else Stream.ReadEach(Stream.Strided(readAt, q.value, stride), count)
  }

  /** `read_vec`: a nullable pointer, then a u32 count, then the records. */
  function VecAt<T>(d: ElfReadDomain, data: Bytes, pos: nat, readAt: nat -> Result<T>, stride: nat): (r: Result<seq<T>>)
    ensures r.Ok? ==> PointerOptionalAt(d, data, pos).Ok? && Stream.U32At(data, pos + 4).Ok?
    ensures r.Ok? ==>
      r == VecRecords(PointerOptionalAt(d, data, pos).value, Stream.U32At(data, pos + 4).value, readAt, stride)
  {
    var p :- PointerOptionalAt(d, data, pos);
    var count :- Stream.U32At(data, pos + 4);
    VecRecords(p, count, readAt, stride)
  }

  /** Record `k` of a vector is the record `k` strides past the pointer. */
  lemma VecRecordsEach<T>(q: Pointer, count: u32, readAt: nat -> Result<T>, stride: nat, k: nat)
    requires VecRecords(Some(q), count, readAt, stride).Ok? && k < count
    ensures readAt(Stream.RecordPos(q.value, stride, k)) == Ok(VecRecords(Some(q), count, readAt, stride).value[k])
  {
    Stream.ReadEachAt(Stream.Strided(readAt, q.value, stride), count, k);
  }

  /** A vector with a target fails only when one of its records does. */
  lemma VecRecordsOk<T>(q: Pointer, count: u32, readAt: nat -> Result<T>, stride: nat)
    ensures VecRecords(Some(q), count, readAt, stride).Ok? <==>
      forall k :: 0 <= k < count ==> readAt(Stream.RecordPos(q.value, stride, k)).Ok?
  {
    if count > 0 {
      var read := Stream.Strided(readAt, q.value, stride);
      assert VecRecords(Some(q), count, readAt, stride) == Stream.ReadEach(read, count);
      Stream.ReadEachOk(read, count);
      assert forall k :: read(k) == readAt(Stream.RecordPos(q.value, stride, k));
    }
  }

  /** `read_box_nullable`: a nullable pointer, and the record at its target. */
  function BoxNullableAt<T>(d: ElfReadDomain, data: Bytes, pos: nat, readAt: nat -> Result<T>): (r: Result<Option<T>>)
    ensures PointerOptionalAt(d, data, pos) == Ok(None) ==> r == Ok(None)
    ensures PointerOptionalAt(d, data, pos).Err? ==> r == Err(PointerOptionalAt(d, data, pos).error)
    ensures PointerOptionalAt(d, data, pos).Ok? && PointerOptionalAt(d, data, pos).value.Some? ==>
      var x := readAt(PointerOptionalAt(d, data, pos).value.value.value);
      (r.Ok? <==> x.Ok?) && (r.Ok? ==> r.value == Some(x.value)) && (r.Err? ==> r.error == x.error)
  {
    var p :- PointerOptionalAt(d, data, pos);
    match p
    case None => Ok(None)
    case Some(q) =>
      var x :- readAt(q.value);
      Ok(Some(x))
  }

  // ------------------------------------------------------------ on a reader

  method ReadPointerOptional(d: ElfReadDomain, reader: Stream.Cursor) returns (r: Result<Option<Pointer>>)
    modifies reader
    ensures r == PointerOptionalAt(d, reader.data, old(reader.pos))
    ensures r.Ok? ==> reader.pos == old(reader.pos) + 4
  {
    var offset := Current(reader.pos);
    if offset.Err? {
      return Err(offset.error);
    }
    var word := reader.ReadU32();
    if word.Err? {
      return Err(word.error);
    }
    if word.value != 0 {
      return Err(NonZeroPointerWord);
    }
    match RelocationTarget(d, offset.value)
    case None => r := Ok(None);
    case Some(t) =>
      if t.Err? {
        return Err(t.error);
      }
      r := Ok(Some(t.value));
  }

  method ReadPointer(d: ElfReadDomain, reader: Stream.Cursor) returns (r: Result<Pointer>)
    modifies reader
    ensures r == PointerAt(d, reader.data, old(reader.pos))
    ensures r.Ok? ==> reader.pos == old(reader.pos) + 4
  {
    var p := ReadPointerOptional(d, reader);
    if p.Err? {
      return Err(p.error);
    }
    match p.value
    case None => r := Err(NullPointer);
    case Some(q) => r := Ok(q);
  }

  method ReadString(d: ElfReadDomain, reader: Stream.Cursor) returns (r: Result<Bytes>)
    modifies reader
    ensures r == StringAt(d, reader.data, old(reader.pos))
    ensures r.Ok? ==> reader.pos == old(reader.pos) + 4
  {
    var p := ReadPointerOptional(d, reader);
    if p.Err? {
      return Err(p.error);
    }
    match p.value
    case None => r := Err(NullPointer);
    case Some(q) => r := StringIn(d, q);
  }

  method ReadStringOptional(d: ElfReadDomain, reader: Stream.Cursor) returns (r: Result<Option<Bytes>>)
    modifies reader
    ensures r == StringOptionalAt(d, reader.data, old(reader.pos))
    ensures r.Ok? ==> reader.pos == old(reader.pos) + 4
  {
    var p := ReadPointerOptional(d, reader);
    if p.Err? {
      return Err(p.error);
    }
    match p.value
    case None => r := Ok(None);
    case Some(q) =>
      var s := StringIn(d, q);
      if s.Err? {
        return Err(s.error);
      }
      r := Ok(Some(s.value));
  }
}
