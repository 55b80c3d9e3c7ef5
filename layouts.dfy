// The record layouts of the data tables and how `ElfReadDomain` reads them.
// Every field of a table record is one 4-byte word: a u32 or f32 kept as
// its raw bits, or a relocated pointer to a string or to another record.
// The derived `Readable` readers and the hand-written ones of
// `src/formats/*.rs` are all built from the few patterns of `Shape`, read
// in declaration order; `ReadValue` gives the meaning of each pattern.
module Layouts {
  import opened Wrappers
  import opened Bytes
  import opened PointerUtil
  import opened ElfRead
  import Stream

  /** What one 4-byte field holds. */
  datatype FieldKind =
    | WordKind        // u32, or f32 kept as its bits
    | StringKind      // String: `read_string`
    | OptStringKind   // Option<String>: `read_string_optional`
    | PointerKind     // Pointer: `read_pointer`

  datatype Shape =
    | Field(kind: FieldKind)
      /** The fields of a struct, back to back in declaration order. */
    | Record(fields: seq<Shape>)
      /** A `Vec` read by `read_vec`: a nullable pointer and a u32 count. */
    | VecField(elem: Shape)
      /** A non-null pointer and a u32 count read by hand; with
          `nullCounted` the count includes a trailing null record that is
          not read (`count - 1` records). */
    | Counted(elem: Shape, nullCounted: bool)
      /** A non-null pointer to records that run until one equals the
          record's default, which ends the list and is not part of it. */
    | UntilDefault(elem: Shape)
      /** A non-null pointer to one record, read with the reader position
          restored afterwards. */
    | Boxed(inner: Shape)

  datatype Value =
    | Word(word: u32)
    | Text(text: Bytes)
    | OptText(optText: Option<Bytes>)
    | Ptr(ptr: Pointer)
    | Fields(values: seq<Value>)
    | List(items: seq<Value>)

  /** Every record has a field, so that every shape takes up room; a list
      that ends at a default record then always moves forward. */
  predicate Sized(s: Shape)
  {
    match s
    case Field(_) => true
    case Record(fs) => |fs| > 0 && forall i :: 0 <= i < |fs| ==> Sized(fs[i])
    case VecField(e) => Sized(e)
    case Counted(e, _) => Sized(e)
    case UntilDefault(e) => Sized(e)
    case Boxed(i) => Sized(i)
  }

  /** The bytes a shape takes up in its parent record. */
  function Size(s: Shape): (r: nat)
    ensures Sized(s) ==> r > 0
    decreases s, 1
  {
    match s
    case Field(_) => 4
    case Record(fs) => FieldsSize(fs)
    case VecField(_) => 8
    case Counted(_, _) => 8
    case UntilDefault(_) => 4
    case Boxed(_) => 4
  }

  function FieldsSize(fs: seq<Shape>): (r: nat)
    ensures |fs| > 0 && Sized(fs[|fs| - 1]) ==> r > 0
    decreases fs, 0
  {
    if fs == [] then 0 else FieldsSize(fs[..|fs| - 1]) + Size(fs[|fs| - 1])
  }

  /** Where field `k` of a record starts. */
  function FieldOffset(fs: seq<Shape>, k: nat): nat
    requires k <= |fs|
  {
    FieldsSize(fs[..k])
  }

  /** Field `k + 1` starts where field `k` ends. */
  lemma FieldOffsetNext(fs: seq<Shape>, k: nat)
    requires k < |fs|
    ensures FieldOffset(fs, k + 1) == FieldOffset(fs, k) + Size(fs[k])
    ensures k + 1 == |fs| ==> FieldOffset(fs, k + 1) == FieldsSize(fs)
  {
    assert fs[..k + 1][..k] == fs[..k];
    assert fs[..|fs|] == fs;
  }

  /** `Default::default()` of the value a shape reads. */
  function DefaultOf(s: Shape): Value
  {
    match s
    case Field(WordKind) => Word(0)
    case Field(StringKind) => Text([])
    case Field(OptStringKind) => OptText(None)
    case Field(PointerKind) => Ptr(Pointer(0))
    case Record(fs) => Fields(seq(|fs|, i requires 0 <= i < |fs| => DefaultOf(fs[i])))
    case VecField(_) => List([])
    case Counted(_, _) => List([])
    case UntilDefault(_) => List([])
    case Boxed(i) => DefaultOf(i)
  }

  /** One field at stream position `pos`. */
  function FieldAt(d: ElfReadDomain, data: Bytes, pos: nat, kind: FieldKind): (r: Result<Value>)
  {
    match kind
    case WordKind =>
      var w :- Stream.U32At(data, pos);
      Ok(Word(w))
    case StringKind =>
      var s :- StringAt(d, data, pos);
      Ok(Text(s))
    case OptStringKind =>
      var s :- StringOptionalAt(d, data, pos);
      Ok(OptText(s))
    case PointerKind =>
      var p :- PointerAt(d, data, pos);
      Ok(Ptr(p))
  }

  /** The value of shape `s` read at stream position `pos`. */
  function ReadValue(d: ElfReadDomain, data: Bytes, pos: nat, s: Shape): (r: Result<Value>)
    requires Sized(s)
    ensures r.Ok? ==> pos + Size(s) <= |data|
    decreases s, 0
  {
    match s
    case Field(kind) => FieldAt(d, data, pos, kind)
    case Record(fs) => RecordAt(d, data, pos, fs)
    case VecField(e) => VecValueAt(d, data, pos, e)
    case Counted(e, nullCounted) => CountedAt(d, data, pos, e, nullCounted)
    case UntilDefault(e) => UntilDefaultValueAt(d, data, pos, e)
    case Boxed(i) => BoxedAt(d, data, pos, i)
  }

  /** A derived `Readable` struct: its fields in declaration order. */
  function RecordAt(d: ElfReadDomain, data: Bytes, pos: nat, fs: seq<Shape>): (r: Result<Value>)
    requires Sized(Record(fs))
    ensures r.Ok? ==> pos + FieldsSize(fs) <= |data|
    ensures r.Ok? ==> r.value.Fields? && |r.value.values| == |fs|
    decreases fs, 2
  {
    var read := FieldReads(d, data, pos, fs);
    var vs :- Stream.ReadEach(read, |fs|);
    var last := |fs| - 1;
    assert ReadValue(d, data, pos + FieldOffset(fs, last), fs[last]).Ok? by {
      Stream.ReadEachAt(read, |fs|, last);
      assert read(last) == FieldValue(d, data, pos, fs, last);
    }
    Ok(Fields(vs))
  }

  /** A `Vec` field, through `read_vec`. */
  function VecValueAt(d: ElfReadDomain, data: Bytes, pos: nat, e: Shape): (r: Result<Value>)
    requires Sized(e)
    ensures r.Ok? ==> pos + 8 <= |data|
    decreases e, 2
  {
    var items :- VecAt(d, data, pos, ElemAt(d, data, e), Size(e));
    Ok(List(items))
  }

  /** The hand-written counted lists (`MaplinkArea::links`,
      `read_dispos_item_vec`): a non-null pointer, a u32 count, then the
      records at the pointer; `count - 1` panics on a zero count. */
  function CountedAt(d: ElfReadDomain, data: Bytes, pos: nat, e: Shape, nullCounted: bool): (r: Result<Value>)
    requires Sized(e)
    ensures r.Ok? ==> pos + 8 <= |data| && r.value.List?
    decreases e, 2
  {
    var q :- PointerAt(d, data, pos);
    var count :- Stream.U32At(data, pos + 4);
    if nullCounted && count == 0 then Err(Panic)
    else
      var items :- Stream.ReadEach(Stream.Strided(ElemAt(d, data, e), q.value, Size(e)), CountedLength(count, nullCounted));
      Ok(List(items))
  }

  /** `Shop::items`: a non-null pointer to records up to the default one. */
  function UntilDefaultValueAt(d: ElfReadDomain, data: Bytes, pos: nat, e: Shape): (r: Result<Value>)
    requires Sized(e)
    ensures r.Ok? ==> pos + 4 <= |data| && r.value.List?
    decreases e, 3
  {
    var q :- PointerAt(d, data, pos);
    var items :- UntilDefaultAt(d, data, q.value, e);
    Ok(List(items))
  }

  /** A record behind a non-null pointer. */
  function BoxedAt(d: ElfReadDomain, data: Bytes, pos: nat, i: Shape): (r: Result<Value>)
    requires Sized(i)
    ensures r.Ok? ==> pos + 4 <= |data|
    decreases i, 2
  {
    var q :- PointerAt(d, data, pos);
    ReadValue(d, data, q.value, i)
  }

  /** The fields of a record at `pos`, as the loop over them reads them. */
  function FieldReads(d: ElfReadDomain, data: Bytes, pos: nat, fs: seq<Shape>): nat -> Result<Value>
    requires forall i :: 0 <= i < |fs| ==> Sized(fs[i])
    decreases fs, 1
  {
    (k: nat) => if k < |fs| then FieldValue(d, data, pos, fs, k) else Err(Panic)
  }

  /** Field `k` of a record at `pos`, read at its offset. */
  function FieldValue(d: ElfReadDomain, data: Bytes, pos: nat, fs: seq<Shape>, k: nat): Result<Value>
    requires k < |fs| && Sized(fs[k])
    decreases fs, 0
  {
    ReadValue(d, data, pos + FieldOffset(fs, k), fs[k])
  }

  /** A record of shape `e` at any position. */
  function ElemAt(d: ElfReadDomain, data: Bytes, e: Shape): nat -> Result<Value>
    requires Sized(e)
    decreases e, 1
  {
    (p: nat) => ReadValue(d, data, p, e)
  }

  /** Records of shape `e` from `pos` on, one after the other, up to the
      first that equals the default. */
  function UntilDefaultAt(d: ElfReadDomain, data: Bytes, pos: nat, e: Shape): Result<seq<Value>>
    requires Sized(e)
    decreases e, 2
  {
    assert Stream.ReadsWithin(ElemAt(d, data, e), Size(e), |data|) by {
      forall p: nat | ElemAt(d, data, e)(p).Ok?
        ensures p + Size(e) <= |data|
      {
        assert ElemAt(d, data, e)(p) == ReadValue(d, data, p, e);
      }
    }
    Stream.ReadUntil(ElemAt(d, data, e), DefaultOf(e), Size(e), |data|, pos)
  }

  /** How many records a count announces: all of them, or all but the
      trailing null one. */
  function CountedLength(count: u32, nullCounted: bool): nat
    requires nullCounted ==> count > 0
  {
    if nullCounted then count - 1 else count
  }

  // ------------------------------------------------------------ records

  /** Field `k` of a record that was read is what reading that field at
      its offset gives. */
  lemma RecordValues(d: ElfReadDomain, data: Bytes, pos: nat, fs: seq<Shape>)
    requires Sized(Record(fs))
    ensures RecordAt(d, data, pos, fs).Ok? ==>
      var vs := RecordAt(d, data, pos, fs).value.values;
      forall k :: 0 <= k < |fs| ==> FieldValue(d, data, pos, fs, k) == Ok(vs[k])
  {
    if RecordAt(d, data, pos, fs).Ok? {
      var read := FieldReads(d, data, pos, fs);
      forall k | 0 <= k < |fs|
        ensures FieldValue(d, data, pos, fs, k) == Ok(RecordAt(d, data, pos, fs).value.values[k])
      {
        Stream.ReadEachAt(read, |fs|, k);
        assert read(k) == FieldValue(d, data, pos, fs, k);
      }
    }
  }

  /** A record whose every field reads is read. */
  lemma RecordOk(d: ElfReadDomain, data: Bytes, pos: nat, fs: seq<Shape>)
    requires Sized(Record(fs))
    ensures (forall k :: 0 <= k < |fs| ==> FieldValue(d, data, pos, fs, k).Ok?) ==> RecordAt(d, data, pos, fs).Ok?
  {
    if forall k :: 0 <= k < |fs| ==> FieldValue(d, data, pos, fs, k).Ok? {
      var read := FieldReads(d, data, pos, fs);
      forall k: nat | k < |fs|
        ensures read(k).Ok?
      {
        assert read(k) == FieldValue(d, data, pos, fs, k);
      }
      Stream.ReadEachOk(read, |fs|);
    }
  }

  /** A record reads field `k` at its offset; it fails exactly when a field
      does. */
  lemma RecordFields(d: ElfReadDomain, data: Bytes, pos: nat, fs: seq<Shape>)
    requires Sized(Record(fs))
    ensures RecordAt(d, data, pos, fs).Ok? ==>
      forall k :: 0 <= k < |fs| ==> FieldValue(d, data, pos, fs, k).Ok?
    ensures (forall k :: 0 <= k < |fs| ==> FieldValue(d, data, pos, fs, k).Ok?) ==> RecordAt(d, data, pos, fs).Ok?
    ensures RecordAt(d, data, pos, fs).Ok? ==>
      var vs := RecordAt(d, data, pos, fs).value.values;
      forall k :: 0 <= k < |fs| ==> FieldValue(d, data, pos, fs, k) == Ok(vs[k])
  {
    RecordOk(d, data, pos, fs);
    RecordValues(d, data, pos, fs);
    if RecordAt(d, data, pos, fs).Ok? {
      var vs := RecordAt(d, data, pos, fs).value.values;
      forall k | 0 <= k < |fs|
        ensures FieldValue(d, data, pos, fs, k).Ok?
      {
        assert FieldValue(d, data, pos, fs, k) == Ok(vs[k]);
      }
    }
  }

  /** The first failing field decides the record's error. */
  lemma RecordError(d: ElfReadDomain, data: Bytes, pos: nat, fs: seq<Shape>, k: nat)
    requires Sized(Record(fs)) && k < |fs|
    requires forall j :: 0 <= j < k ==> FieldValue(d, data, pos, fs, j).Ok?
    requires FieldValue(d, data, pos, fs, k).Err?
    ensures RecordAt(d, data, pos, fs) == Err(FieldValue(d, data, pos, fs, k).error)
  {
    var read := FieldReads(d, data, pos, fs);
    forall j: nat | j < k
      ensures read(j).Ok?
    {
      assert read(j) == FieldValue(d, data, pos, fs, j);
    }
    Stream.ReadEachOk(read, k);
    assert read(k) == FieldValue(d, data, pos, fs, k);
    Stream.ReadEachStop(read, k, |fs|);
  }

  /** The flat records of the tables: 4-byte fields of the kinds the code
      names, `S` a string, `O` an optional string, `P` a pointer and any
      other letter a word. */
  function KindOf(c: char): FieldKind
  {
    match c
    case 'S' => StringKind
    case 'O' => OptStringKind
    case 'P' => PointerKind
    case _ => WordKind
  }

  function Flat(code: string): (s: Shape)
    ensures s.Record? && |s.fields| == |code|
    ensures forall k :: 0 <= k < |code| ==> s.fields[k] == Field(KindOf(code[k]))
  {
    Record(seq(|code|, k requires 0 <= k < |code| => Field(KindOf(code[k]))))
  }

  /** Fields of 4 bytes each: field `k` at byte `4 * k`. */
  lemma {:induction false} WordFieldsOffsets(fs: seq<Shape>)
    requires forall i :: 0 <= i < |fs| ==> fs[i].Field?
    ensures FieldsSize(fs) == 4 * |fs|
    ensures forall k :: 0 <= k <= |fs| ==> FieldOffset(fs, k) == 4 * k
  {
    if fs != [] {
      var init := fs[..|fs| - 1];
      WordFieldsOffsets(init);
      forall k | 0 <= k <= |fs|
        ensures FieldOffset(fs, k) == 4 * k
      {
        if k < |fs| {
          assert fs[..k] == init[..k];
          assert FieldOffset(init, k) == 4 * k;
        } else {
          assert fs[..k] == fs;
          assert FieldsSize(fs) == FieldsSize(init) + Size(fs[|fs| - 1]);
        }
      }
    }
  }

  /** A flat record is `4 * |code|` bytes, with field `k` at byte `4 * k`:
      `field_0xN` sits at byte N. */
  lemma FlatLayout(code: string)
    requires |code| > 0
    ensures Sized(Flat(code)) && Size(Flat(code)) == 4 * |code|
    ensures forall k :: 0 <= k < |code| ==> FieldOffset(Flat(code).fields, k) == 4 * k
  {
    WordFieldsOffsets(Flat(code).fields);
  }

  /** Reading a flat record reads field `k` at `pos + 4 * k` with the
      reader of its kind. */
  lemma FlatRead(d: ElfReadDomain, data: Bytes, pos: nat, code: string)
    requires |code| > 0
    ensures Sized(Flat(code))
    ensures ReadValue(d, data, pos, Flat(code)).Ok? <==>
      forall k :: 0 <= k < |code| ==> FieldAt(d, data, pos + 4 * k, KindOf(code[k])).Ok?
    ensures ReadValue(d, data, pos, Flat(code)).Ok? ==>
      var vs := ReadValue(d, data, pos, Flat(code)).value.values;
      |vs| == |code| && forall k :: 0 <= k < |code| ==> FieldAt(d, data, pos + 4 * k, KindOf(code[k])) == Ok(vs[k])
  {
    FlatLayout(code);
    var fs := Flat(code).fields;
    assert ReadValue(d, data, pos, Flat(code)) == RecordAt(d, data, pos, fs);
    forall k | 0 <= k < |code|
      ensures FieldValue(d, data, pos, fs, k) == FieldAt(d, data, pos + 4 * k, KindOf(code[k]))
    {
      assert fs[k] == Field(KindOf(code[k]));
    }
    RecordFields(d, data, pos, fs);
  }

  /** A two-field record reads as its two field values. */
  lemma RecordOfTwo(d: ElfReadDomain, data: Bytes, pos: nat, fs: seq<Shape>)
    requires Sized(Record(fs)) && |fs| == 2
    ensures var r, x, y := RecordAt(d, data, pos, fs), FieldValue(d, data, pos, fs, 0), FieldValue(d, data, pos, fs, 1);
      && (r.Ok? <==> x.Ok? && y.Ok?)
      && (r.Ok? ==> r.value == Fields([x.value, y.value]))
  {
    RecordFields(d, data, pos, fs);
    var r := RecordAt(d, data, pos, fs);
    if r.Ok? {
      assert r.value.values == [r.value.values[0], r.value.values[1]];
    }
  }

  /** A four-field record reads as its four field values. */
  lemma RecordOfFour(d: ElfReadDomain, data: Bytes, pos: nat, fs: seq<Shape>)
    requires Sized(Record(fs)) && |fs| == 4
    ensures var r := RecordAt(d, data, pos, fs);
      var w, x, y, z := FieldValue(d, data, pos, fs, 0), FieldValue(d, data, pos, fs, 1), FieldValue(d, data, pos, fs, 2), FieldValue(d, data, pos, fs, 3);
      && (r.Ok? <==> w.Ok? && x.Ok? && y.Ok? && z.Ok?)
      && (r.Ok? ==> r.value == Fields([w.value, x.value, y.value, z.value]))
  {
    RecordFields(d, data, pos, fs);
    var r := RecordAt(d, data, pos, fs);
    if r.Ok? {
      var vs := r.value.values;
      assert vs == [vs[0], vs[1], vs[2], vs[3]];
    }
  }

  /** A record of two fields, such as an id and a list: the first field at
      the record's position, the second right after it. */
  lemma PairRead(d: ElfReadDomain, data: Bytes, pos: nat, a: Shape, b: Shape)
    requires Sized(a) && Sized(b)
    ensures Sized(Record([a, b])) && Size(Record([a, b])) == Size(a) + Size(b)
    ensures var r := ReadValue(d, data, pos, Record([a, b]));
      var x := ReadValue(d, data, pos, a);
      var y := ReadValue(d, data, pos + Size(a), b);
      && (r.Ok? <==> x.Ok? && y.Ok?)
      && (r.Ok? ==> r.value == Fields([x.value, y.value]))
  {
    var fs := [a, b];
    assert fs[..0] == [] && fs[..1] == [a] && fs[..2] == fs;
    assert FieldsSize([a]) == Size(a) by {
      assert [a][..|[a]| - 1] == [];
    }
    assert FieldOffset(fs, 1) == Size(a);
    assert FieldsSize(fs) == Size(a) + Size(b) by {
      assert fs[..|fs| - 1] == [a];
    }
    assert FieldValue(d, data, pos, fs, 0) == ReadValue(d, data, pos, a);
    assert FieldValue(d, data, pos, fs, 1) == ReadValue(d, data, pos + Size(a), b);
    RecordOfTwo(d, data, pos, fs);
    assert ReadValue(d, data, pos, Record([a, b])) == RecordAt(d, data, pos, fs);
  }

  /** A `#[boxed]` record of an id and a `Vec`: `MapLct`, `AreaLct` and
      the dispos lists.  A non-null pointer, and at its target the id and
      the pointer and count of the items. */
  lemma BoxedIdVecRead(d: ElfReadDomain, data: Bytes, pos: nat, e: Shape)
    requires Sized(e)
    ensures Sized(Boxed(Record([Field(StringKind), VecField(e)]))) && Size(Boxed(Record([Field(StringKind), VecField(e)]))) == 4
    ensures var r := ReadValue(d, data, pos, Boxed(Record([Field(StringKind), VecField(e)])));
      var p := PointerAt(d, data, pos);
      && (p.Err? ==> r == Err(p.error))
      && (p.Ok? ==>
        var q := p.value.value as nat;
        && (r.Ok? <==> StringAt(d, data, q).Ok? && VecValueAt(d, data, q + 4, e).Ok?)
        && (r.Ok? ==> r.value == Fields([Text(StringAt(d, data, q).value), VecValueAt(d, data, q + 4, e).value])))
  {
    var i := Record([Field(StringKind), VecField(e)]);
    var p := PointerAt(d, data, pos);
    assert Sized(i) && Size(i) == 12 by {
      PairRead(d, data, pos, Field(StringKind), VecField(e));
    }
    if p.Ok? {
      var q := p.value.value as nat;
      assert ReadValue(d, data, pos, Boxed(i)) == ReadValue(d, data, q, i);
      PairRead(d, data, q, Field(StringKind), VecField(e));
    }
  }

  // ------------------------------------------------------------ lists

  /** A hand-read counted list: the count must hold its trailing null
      record, and the records sit one after the other at the pointer. */
  lemma CountedItems(d: ElfReadDomain, data: Bytes, pos: nat, e: Shape, nullCounted: bool)
    requires Sized(e)
    ensures var r := CountedAt(d, data, pos, e, nullCounted);
      r.Ok? ==>
        && PointerAt(d, data, pos).Ok? && Stream.U32At(data, pos + 4).Ok?
        && var count := Stream.U32At(data, pos + 4).value;
        && var q := PointerAt(d, data, pos).value;
        && (nullCounted ==> count > 0)
        && |r.value.items| == CountedLength(count, nullCounted)
        && forall k :: 0 <= k < |r.value.items| ==> ReadValue(d, data, Stream.RecordPos(q.value, Size(e), k), e) == Ok(r.value.items[k])
    ensures nullCounted && PointerAt(d, data, pos).Ok? && Stream.U32At(data, pos + 4) == Ok(0) ==>
      CountedAt(d, data, pos, e, nullCounted) == Err(Panic)
  {
    var r := CountedAt(d, data, pos, e, nullCounted);
    if r.Ok? {
      var count := Stream.U32At(data, pos + 4).value;
      var q := PointerAt(d, data, pos).value;
      var read := Stream.Strided(ElemAt(d, data, e), q.value, Size(e));
      var n := CountedLength(count, nullCounted);
      forall k | 0 <= k < n
        ensures ReadValue(d, data, Stream.RecordPos(q.value, Size(e), k), e) == Ok(r.value.items[k])
      {
        Stream.ReadEachAt(read, n, k);
      }
    }
  }

  /** A record of shape `e` that reads ends within the data. */
  lemma ElemWithin(d: ElfReadDomain, data: Bytes, e: Shape)
    requires Sized(e)
    ensures Stream.ReadsWithin(ElemAt(d, data, e), Size(e), |data|)
  {
    forall p: nat | ElemAt(d, data, e)(p).Ok?
      ensures p + Size(e) <= |data|
    {
      assert ElemAt(d, data, e)(p) == ReadValue(d, data, p, e);
    }
  }

  /** The records of a default-terminated list, and the default record
      that ends it, at consecutive record positions. */
  lemma UntilDefaultItems(d: ElfReadDomain, data: Bytes, pos: nat, e: Shape)
    requires Sized(e) && UntilDefaultAt(d, data, pos, e).Ok?
    ensures var items := UntilDefaultAt(d, data, pos, e).value;
      && (forall k :: 0 <= k < |items| ==>
            ReadValue(d, data, Stream.RecordPos(pos, Size(e), k), e) == Ok(items[k]) && items[k] != DefaultOf(e))
      && ReadValue(d, data, Stream.RecordPos(pos, Size(e), |items|), e) == Ok(DefaultOf(e))
  {
    var read := ElemAt(d, data, e);
    ElemWithin(d, data, e);
    Stream.ReadUntilItems(read, DefaultOf(e), Size(e), |data|, pos);
    var items := UntilDefaultAt(d, data, pos, e).value;
    forall k | 0 <= k <= |items|
      ensures read(Stream.RecordPos(pos, Size(e), k)) == ReadValue(d, data, Stream.RecordPos(pos, Size(e), k), e)
    {
    }
  }

  /** Conversely, records at consecutive positions that are not the default,
      followed by a default record, read back as exactly those records. */
  lemma UntilDefaultReadsBack(d: ElfReadDomain, data: Bytes, pos: nat, e: Shape, items: seq<Value>)
    requires Sized(e)
    requires forall k :: 0 <= k < |items| ==>
      ReadValue(d, data, Stream.RecordPos(pos, Size(e), k), e) == Ok(items[k]) && items[k] != DefaultOf(e)
    requires ReadValue(d, data, Stream.RecordPos(pos, Size(e), |items|), e) == Ok(DefaultOf(e))
    ensures UntilDefaultAt(d, data, pos, e) == Ok(items)
  {
    var read := ElemAt(d, data, e);
    ElemWithin(d, data, e);
    forall k | 0 <= k <= |items|
      ensures read(Stream.RecordPos(pos, Size(e), k)) == ReadValue(d, data, Stream.RecordPos(pos, Size(e), k), e)
    {
    }
    Stream.ReadUntilOf(read, DefaultOf(e), Size(e), |data|, pos, items);
  }

  /** `#[boxed]` and the hand-written pointer records read the record at a
      non-null pointer: `read_box_nullable` with the absent case an error. */
  lemma BoxedIsNonNullBox(d: ElfReadDomain, data: Bytes, pos: nat, inner: Shape)
    requires Sized(inner)
    ensures var r := ReadValue(d, data, pos, Boxed(inner));
      var b := BoxNullableAt(d, data, pos, ElemAt(d, data, inner));
      && (r.Ok? <==> b.Ok? && b.value.Some?)
      && (r.Ok? ==> b.value == Some(r.value))
      && (b == Ok(None) ==> r == Err(NullPointer))
      && (b.Err? ==> r == Err(b.error))
  {
  }
}
